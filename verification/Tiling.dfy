/** What it means for the ranges of a ledger to tile the source texts, and what follows from it. */
module Tiling {
  import opened Wrappers
  import opened SourceText
  import opened Ledger

  /** The position of a file in the source order; -1 when it is not a candidate source. */
  function Idx(sources: seq<SourceDoc>, rel: string): (i: int)
    ensures -1 <= i < |sources|
    ensures i >= 0 ==> sources[i].rel == rel
  {
    match IndexOf(sources, rel)
    case None => -1
    case Some(i) => i
  }

  function TextAt(sources: seq<SourceDoc>, rel: string): string
  {
    if Idx(sources, rel) < 0 then "" else sources[Idx(sources, rel)].text
  }

  /** A non-empty stretch of a candidate source. */
  ghost predicate InBounds(sources: seq<SourceDoc>, r: Range)
  {
    0 <= Idx(sources, r.rel) && 0 <= r.start < r.end <= |TextAt(sources, r.rel)|
  }

  /**
   Going on from (fromRel, offset), `start` in `rel` is next: same place, or the top of a later file with only blanks
   skipped.
   */
  ghost predicate Reaches(sources: seq<SourceDoc>, fromRel: string, offset: int, rel: string, start: int)
  {
    if rel == fromRel then start == offset
    else
      var i, j := Idx(sources, fromRel), Idx(sources, rel);
      && 0 <= i < j
      && start == 0
      && 0 <= offset <= |sources[i].text|
      && IsBlank(sources[i].text[offset..])
      && BlankBetween(sources, i + 1, j)
  }

  /** A first range starts at offset 0, after nothing but blank files. */
  ghost predicate Opens(sources: seq<SourceDoc>, rel: string, start: int)
  {
    0 <= Idx(sources, rel) && start == 0 && BlankBetween(sources, 0, Idx(sources, rel))
  }

  ghost predicate IsTiling(sources: seq<SourceDoc>, ranges: seq<Range>)
  {
    && (forall i | 0 <= i < |ranges| :: InBounds(sources, ranges[i]))
    && (ranges != [] ==> Opens(sources, ranges[0].rel, ranges[0].start))
    && forall i | 0 < i < |ranges| :: RunsOn(sources, ranges[i - 1], ranges[i])
  }

  /** The second range starts where the first one ends. */
  ghost predicate RunsOn(sources: seq<SourceDoc>, a: Range, b: Range)
  {
    Reaches(sources, a.rel, a.end, b.rel, b.start)
  }

  lemma TilingPrefix(sources: seq<SourceDoc>, ranges: seq<Range>, k: nat)
    requires IsTiling(sources, ranges) && k <= |ranges|
    ensures IsTiling(sources, ranges[..k])
  {
  }

  // ----- batches

  /** Cut points of one batch, relative to where the batch starts. */
  ghost predicate IsBatch(ends: seq<int>, start: int, length: int)
  {
    && ends != []
    && (forall i | 0 <= i < |ends| :: 0 < ends[i] && start + ends[i] <= length)
    && forall i | 0 <= i < |ends| - 1 :: ends[i] < ends[i + 1]
  }

  function BatchRange(rel: string, start: int, ends: seq<int>, i: nat): Range
    requires i < |ends|
  {
    Range(rel, if i == 0 then start else start + ends[i - 1], start + ends[i])
  }

  function BatchRanges(rel: string, start: int, ends: seq<int>): (r: seq<Range>)
  {
    seq(|ends|, i requires 0 <= i < |ends| => BatchRange(rel, start, ends, i))
  }

  /** Where the next batch may start. */
  ghost predicate Continues(sources: seq<SourceDoc>, ranges: seq<Range>, rel: string, start: int)
  {
    if ranges == [] then Opens(sources, rel, start)
    else Reaches(sources, ranges[|ranges| - 1].rel, ranges[|ranges| - 1].end, rel, start)
  }

  lemma ExtendTiling(sources: seq<SourceDoc>, ranges: seq<Range>, rel: string, start: int, ends: seq<int>)
    requires IsTiling(sources, ranges)
    requires 0 <= Idx(sources, rel) && 0 <= start && IsBatch(ends, start, |TextAt(sources, rel)|)
    requires Continues(sources, ranges, rel, start)
    ensures IsTiling(sources, ranges + BatchRanges(rel, start, ends))
  {
    var all := ranges + BatchRanges(rel, start, ends);
    forall i | 0 <= i < |all| ensures InBounds(sources, all[i]) {
      if i >= |ranges| {
        BatchInBounds(sources, rel, start, ends, i - |ranges|);
      }
    }
    forall i | 0 < i < |all| ensures RunsOn(sources, all[i - 1], all[i]) {
      ExtendedRunsOn(sources, ranges, rel, start, ends, i);
    }
  }

  lemma ExtendedRunsOn(
    sources: seq<SourceDoc>, ranges: seq<Range>, rel: string, start: int, ends: seq<int>, i: nat)
    requires IsTiling(sources, ranges) && Continues(sources, ranges, rel, start)
    requires 0 < i < |ranges + BatchRanges(rel, start, ends)|
    ensures var all := ranges + BatchRanges(rel, start, ends);
            RunsOn(sources, all[i - 1], all[i])
  {
    if i > |ranges| {
      BatchRunsOn(sources, rel, start, ends, i - |ranges|);
    }
  }

  lemma BatchInBounds(sources: seq<SourceDoc>, rel: string, start: int, ends: seq<int>, k: nat)
    requires 0 <= Idx(sources, rel) && 0 <= start && IsBatch(ends, start, |TextAt(sources, rel)|) && k < |ends|
    ensures InBounds(sources, BatchRanges(rel, start, ends)[k])
  {
    assert k > 0 ==> ends[k - 1] < ends[k - 1 + 1];
  }

  lemma BatchRunsOn(sources: seq<SourceDoc>, rel: string, start: int, ends: seq<int>, k: nat)
    requires 0 < k < |ends|
    ensures RunsOn(sources, BatchRanges(rel, start, ends)[k - 1], BatchRanges(rel, start, ends)[k])
  {
  }

  // ----- coverage

  /** Every non-whitespace character of every source lies in exactly one range. */
  ghost predicate IsAllCovered(sources: seq<SourceDoc>, ranges: seq<Range>)
  {
    forall i: nat, offset: nat | i < |sources| && offset < |sources[i].text| && !IsSpace(sources[i].text[offset]) ::
      IsInOneRange(sources, ranges, i, offset)
  }

  ghost predicate IsInOneRange(sources: seq<SourceDoc>, ranges: seq<Range>, i: nat, offset: nat)
  {
    exists k :: 0 <= k < |ranges| && Covers(sources, ranges[k], i, offset)
                && forall j | 0 <= j < |ranges| && Covers(sources, ranges[j], i, offset) :: j == k
  }

  /** The character at `offset` of the `i`-th source lies in the range. */
  ghost predicate Covers(sources: seq<SourceDoc>, r: Range, i: nat, offset: nat)
  {
    Idx(sources, r.rel) == i && r.start <= offset < r.end
  }

  /** (i, a) comes before (j, b) in reading order. */
  predicate Before(i: int, a: int, j: int, b: int)
  {
    i < j || (i == j && a < b)
  }

  lemma NonSpaceBefore(text: string, end: int, offset: nat)
    requires 0 <= end <= |text| && IsBlank(text[end..])
    requires offset < |text| && !IsSpace(text[offset])
    ensures offset < end
  {
    forall j | end <= j < |text| ensures IsSpace(text[j]) {
      assert text[end..][j - end] == text[j];
    }
  }

  /** Everything before the end of the last range is in a range or is whitespace. */
  lemma {:induction false} CoveredUpTo(sources: seq<SourceDoc>, ranges: seq<Range>, i: nat, offset: nat)
    requires DistinctRels(sources) && IsTiling(sources, ranges) && ranges != []
    requires i < |sources| && offset < |sources[i].text| && !IsSpace(sources[i].text[offset])
    requires Before(i, offset, Idx(sources, ranges[|ranges| - 1].rel), ranges[|ranges| - 1].end)
    ensures exists k :: 0 <= k < |ranges| && Covers(sources, ranges[k], i, offset)
  {
    var n := |ranges| - 1;
    var last := ranges[n];
    IndexOfAt(sources, i);
    if !Covers(sources, last, i, offset) && n > 0 {
      var prev := ranges[n - 1];
      var at := Idx(sources, prev.rel);
      assert Reaches(sources, prev.rel, prev.end, last.rel, last.start);
      if i == at && prev.rel != last.rel {
        NonSpaceBefore(sources[i].text, prev.end, offset);
      }
      TilingPrefix(sources, ranges, n);
      CoveredUpTo(sources, ranges[..n], i, offset);
      var k :| 0 <= k < n && Covers(sources, ranges[..n][k], i, offset);
      assert Covers(sources, ranges[k], i, offset);
    }
  }

  /** A range ends no later in reading order than any later one starts. */
  lemma {:induction false} RangesAreOrdered(sources: seq<SourceDoc>, ranges: seq<Range>, j: nat, k: nat)
    requires IsTiling(sources, ranges) && j < k < |ranges|
    ensures !Before(Idx(sources, ranges[k].rel), ranges[k].start, Idx(sources, ranges[j].rel), ranges[j].end)
    ensures Idx(sources, ranges[j].rel) <= Idx(sources, ranges[k].rel)
  {
    assert InBounds(sources, ranges[k - 1]);
    assert Reaches(sources, ranges[k - 1].rel, ranges[k - 1].end, ranges[k].rel, ranges[k].start);
    if j < k - 1 {
      RangesAreOrdered(sources, ranges, j, k - 1);
    }
  }

  /** No character is in two ranges. */
  lemma CoveredOnce(sources: seq<SourceDoc>, ranges: seq<Range>, i: nat, offset: nat, j: nat, k: nat)
    requires IsTiling(sources, ranges) && j < |ranges| && k < |ranges|
    requires Covers(sources, ranges[j], i, offset) && Covers(sources, ranges[k], i, offset)
    ensures j == k
  {
    if j < k {
      RangesAreOrdered(sources, ranges, j, k);
    } else if k < j {
      RangesAreOrdered(sources, ranges, k, j);
    }
  }

  /** Nothing but whitespace is left after (rel, offset). */
  ghost predicate NothingLeft(sources: seq<SourceDoc>, rel: string, offset: int)
  {
    && 0 <= Idx(sources, rel)
    && 0 <= offset <= |TextAt(sources, rel)|
    && IsBlank(TextAt(sources, rel)[offset..])
    && BlankBetween(sources, Idx(sources, rel) + 1, |sources|)
  }

  /** When nothing is left after the last range, every non-whitespace character is in exactly one range. */
  lemma FullyCovered(sources: seq<SourceDoc>, ranges: seq<Range>, i: nat, offset: nat)
    requires DistinctRels(sources) && IsTiling(sources, ranges)
    requires if ranges == [] then BlankBetween(sources, 0, |sources|)
             else NothingLeft(sources, ranges[|ranges| - 1].rel, ranges[|ranges| - 1].end)
    requires i < |sources| && offset < |sources[i].text| && !IsSpace(sources[i].text[offset])
    ensures exists k :: 0 <= k < |ranges| && Covers(sources, ranges[k], i, offset)
                        && forall j | 0 <= j < |ranges| && Covers(sources, ranges[j], i, offset) :: j == k
  {
    if ranges != [] {
      var last := ranges[|ranges| - 1];
      if i == Idx(sources, last.rel) {
        NonSpaceBefore(sources[i].text, last.end, offset);
      }
      CoveredUpTo(sources, ranges, i, offset);
      var k :| 0 <= k < |ranges| && Covers(sources, ranges[k], i, offset);
      forall j | 0 <= j < |ranges| && Covers(sources, ranges[j], i, offset) ensures j == k {
        CoveredOnce(sources, ranges, i, offset, j, k);
      }
    }
  }

  // ----- concatenation

  /** How far the ranges have got in one file. */
  function FileEnd(ranges: seq<Range>, rel: string): int
  {
    if ranges == [] then 0
    else if ranges[|ranges| - 1].rel == rel then ranges[|ranges| - 1].end
    else FileEnd(ranges[..|ranges| - 1], rel)
  }

  /** The pieces that belong to one file, joined in ledger order. */
  function Joined(ranges: seq<Range>, pieces: seq<string>, rel: string): string
    requires |pieces| == |ranges|
  {
    if ranges == [] then ""
    else
      var n := |ranges| - 1;
      Joined(ranges[..n], pieces[..n], rel) + (if ranges[n].rel == rel then pieces[n] else "")
  }

  lemma {:induction false} NotYetReached(sources: seq<SourceDoc>, ranges: seq<Range>, rel: string)
    requires IsTiling(sources, ranges)
    requires ranges != [] ==> Idx(sources, ranges[|ranges| - 1].rel) < Idx(sources, rel)
    ensures FileEnd(ranges, rel) == 0
  {
    if ranges != [] {
      var n := |ranges| - 1;
      TilingPrefix(sources, ranges, n);
      if n > 0 {
        RangesAreOrdered(sources, ranges, n - 1, n);
      }
      NotYetReached(sources, ranges[..n], rel);
    }
  }

  /** A range of a file starts where the earlier ranges of that file have got to. */
  lemma StartsAtFileEnd(sources: seq<SourceDoc>, ranges: seq<Range>)
    requires IsTiling(sources, ranges) && ranges != []
    ensures FileEnd(ranges[..|ranges| - 1], ranges[|ranges| - 1].rel) == ranges[|ranges| - 1].start
  {
    var n := |ranges| - 1;
    if n > 0 {
      TilingPrefix(sources, ranges, n);
      assert Reaches(sources, ranges[n - 1].rel, ranges[n - 1].end, ranges[n].rel, ranges[n].start);
      if ranges[n - 1].rel != ranges[n].rel {
        NotYetReached(sources, ranges[..n], ranges[n].rel);
      }
    }
  }

  /** The text a range stands for. */
  ghost predicate IsPiece(sources: seq<SourceDoc>, r: Range, piece: string)
  {
    InBounds(sources, r) && piece == TextAt(sources, r.rel)[r.start..r.end]
  }

  /** The ranges of each file, cut out and joined, are a prefix of that file's text. */
  lemma {:induction false} PiecesMakeAPrefix(
    sources: seq<SourceDoc>, ranges: seq<Range>, pieces: seq<string>, rel: string)
    requires IsTiling(sources, ranges) && |pieces| == |ranges|
    requires forall k | 0 <= k < |ranges| :: IsPiece(sources, ranges[k], pieces[k])
    ensures 0 <= FileEnd(ranges, rel) <= |TextAt(sources, rel)|
    ensures Joined(ranges, pieces, rel) == TextAt(sources, rel)[..FileEnd(ranges, rel)]
  {
    if ranges != [] {
      var n := |ranges| - 1;
      assert IsPiece(sources, ranges[n], pieces[n]);
      TilingPrefix(sources, ranges, n);
      PiecesMakeAPrefix(sources, ranges[..n], pieces[..n], rel);
      StartsAtFileEnd(sources, ranges);
      if ranges[n].rel == rel {
        PrefixGrows(TextAt(sources, rel), ranges[n].start, ranges[n].end);
      }
    }
  }

  lemma PrefixGrows(text: string, a: int, b: int)
    requires 0 <= a <= b <= |text|
    ensures text[..a] + text[a..b] == text[..b]
  {
  }
}
