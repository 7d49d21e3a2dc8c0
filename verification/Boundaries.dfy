/**
 Turning the end anchors a text model quotes into cut positions inside a window of source text.

 `normalize` stands for the normalization the source texts have already been through (NFC plus newline folding);
 nothing below depends on which function it is.
 */
module Boundaries {
  import opened Wrappers
  import opened SourceText

  /** Full-width and typographic punctuation, each mapped to one half-width character. */
  const PUNCT_FOLD: map<char, char> := map[
    '。' := '.', '．' := '.', '，' := ',', '！' := '!', '？' := '?', '：' := ':', '；' := ';',
    '（' := '(', '）' := ')', '～' := '~', '〜' := '~', '“' := '"', '”' := '"',
    '‘' := '\'', '’' := '\'', '＂' := '"', '＇' := '\'']

  function FoldChar(c: char): char
  {
    if c in PUNCT_FOLD then PUNCT_FOLD[c] else if IsSpace(c) then ' ' else c
  }

  function Fold(text: string): (r: string)
    ensures |r| == |text|
  {
    seq(|text|, i requires 0 <= i < |text| => FoldChar(text[i]))
  }

  /** The punctuation whose full-width forms, 0xFEE0 further on, are folded. */
  const HALF_WIDTH := "!\"'(),.:;?~"

  predicate IsFullWidth(c: char)
  {
    exists h | h in HALF_WIDTH :: c as int == h as int + 0xFEE0
  }

  /** Chinese full stop, wave dash and curly quotes, which have no full-width form of their own. */
  const TYPOGRAPHIC := "。〜“”‘’"

  /**
   Folding takes full-width punctuation to its half-width form, curly quotes to straight ones, the Chinese full stop to
   a full stop, the wave dash to a tilde, and whitespace to a blank; every other character stays.
   */
  lemma FoldIsHalfWidth(c: char, h: char)
    ensures h in HALF_WIDTH && c as int == h as int + 0xFEE0 ==> FoldChar(c) == h
    ensures c in "“”" ==> FoldChar(c) == '"'
    ensures c in "‘’" ==> FoldChar(c) == '\''
    ensures FoldChar('。') == '.' && FoldChar('〜') == '~'
    ensures IsSpace(c) ==> FoldChar(c) == ' '
    ensures !IsFullWidth(c) && c !in TYPOGRAPHIC && !IsSpace(c) ==> FoldChar(c) == c
  {
    FullWidthForms(c);
  }

  lemma FullWidthForms(c: char)
    ensures c in "！＂＇（），．：；？～" ==> IsFullWidth(c)
    ensures c in PUNCT_FOLD <==> c in "！＂＇（），．：；？～" || c in TYPOGRAPHIC
  {
    if c in "！＂＇（），．：；？～" {
      var h := FoldChar(c);
      assert h in HALF_WIDTH && c as int == h as int + 0xFEE0;
    }
  }

  /** Folding twice is folding once. */
  lemma FoldIsIdempotent(text: string)
    ensures Fold(Fold(text)) == Fold(text)
  {
    forall i | 0 <= i < |text| ensures FoldChar(FoldChar(text[i])) == FoldChar(text[i]) {
      FoldedStays(text[i]);
    }
  }

  lemma FoldedStays(c: char)
    ensures FoldChar(FoldChar(c)) == FoldChar(c)
  {
    FoldedIsHalf(c);
    if FoldChar(c) in HALF_WIDTH {
      HalfStays(FoldChar(c));
    }
  }

  lemma FoldedIsHalf(c: char)
    ensures c in PUNCT_FOLD ==> FoldChar(c) in HALF_WIDTH
  {
  }

  lemma HalfStays(h: char)
    ensures h in HALF_WIDTH ==> FoldChar(h) == h
  {
  }

  method FoldForMatch(text: string) returns (out: string)
    ensures out == Fold(text)
  {
    out := "";
    for i := 0 to |text|
      invariant out == Fold(text)[..i]
    {
      var c := text[i];
      if c in PUNCT_FOLD {
        out := out + [PUNCT_FOLD[c]];
      } else if IsSpace(c) {
        out := out + [' '];
      } else {
        out := out + [c];
      }
    }
  }

  /** `needle` occurs in `haystack` at `i`. An empty needle is never looked for. */
  predicate OccursAt(haystack: string, needle: string, i: int)
  {
    needle != "" && 0 <= i && i + |needle| <= |haystack| && haystack[i..i + |needle|] == needle
  }

  /** str.find: the first occurrence at or after `from`, or -1. */
  method Find(haystack: string, needle: string, from: nat) returns (found: int)
    requires needle != ""
    ensures found == -1 ==> forall i | from <= i :: !OccursAt(haystack, needle, i)
    ensures found != -1 ==> from <= found && OccursAt(haystack, needle, found)
    ensures found != -1 ==> forall i | from <= i < found :: !OccursAt(haystack, needle, i)
  {
    var i := from;
    while i + |needle| <= |haystack|
      invariant from <= i
      invariant forall j | from <= j < i :: !OccursAt(haystack, needle, j)
    {
      if haystack[i..i + |needle|] == needle {
        return i;
      }
      i := i + 1;
    }
    return -1;
  }

  /** Every occurrence, overlapping ones included, in ascending order. */
  ghost predicate IsAllOccurrences(haystack: string, needle: string, starts: seq<int>)
  {
    && (forall i :: OccursAt(haystack, needle, i) <==> i in starts)
    && forall i, j | 0 <= i < j < |starts| :: starts[i] < starts[j]
  }

  method FindAllOverlapping(haystack: string, needle: string) returns (starts: seq<int>)
    ensures IsAllOccurrences(haystack, needle, starts)
  {
    starts := [];
    if needle == "" {
      return;
    }
    var found := Find(haystack, needle, 0);
    while found != -1
      invariant found == -1 || OccursAt(haystack, needle, found)
      invariant forall k | 0 <= k < |starts| ::
          OccursAt(haystack, needle, starts[k]) && (found != -1 ==> starts[k] < found)
      invariant forall i | OccursAt(haystack, needle, i) && (found != -1 ==> i < found) :: i in starts
      invariant forall i, j | 0 <= i < j < |starts| :: starts[i] < starts[j]
      decreases if found == -1 then 0 else |haystack| + 1 - found
    {
      starts := starts + [found];
      found := Find(haystack, needle, found + 1);
    }
  }

  /** `i` is the only place where `needle` occurs. */
  ghost predicate OccursOnlyAt(haystack: string, needle: string, i: int)
  {
    OccursAt(haystack, needle, i) && forall j | OccursAt(haystack, needle, j) :: j == i
  }

  ghost predicate Occurs(haystack: string, needle: string)
  {
    exists i :: OccursAt(haystack, needle, i)
  }

  /** `end` is where the one place `anchor` points at ends: exactly if it occurs at all, else up to folding. */
  ghost predicate EndsAt(window: string, anchor: string, normalize: string -> string, end: int)
  {
    if Occurs(window, anchor) then
      OccursOnlyAt(window, anchor, end - |anchor|)
    else
      OccursOnlyAt(Fold(window), Fold(normalize(anchor)), end - |normalize(anchor)|)
  }

  lemma EndsAtUnique(window: string, anchor: string, normalize: string -> string, e: int, e': int)
    requires EndsAt(window, anchor, normalize, e) && EndsAt(window, anchor, normalize, e')
    ensures e == e'
  {
  }

  /** Positions before whitespace-tail snapping: one per anchor, strictly increasing. */
  ghost predicate IsCut(window: string, anchors: seq<string>, normalize: string -> string, ends: seq<int>)
  {
    && |ends| == |anchors|
    && (forall i | 0 <= i < |ends| :: EndsAt(window, anchors[i], normalize, ends[i]))
    && forall i | 0 <= i < |ends| - 1 :: ends[i] < ends[i + 1]
  }

  /** Whether the last cut is moved to the end of the window. */
  predicate Snaps(window: string, end: int, snap: bool)
    requires 0 <= end <= |window|
  {
    snap && end < |window| && IsBlank(window[end..])
  }

  /** `ends` is a legal answer for these anchors. */
  ghost predicate IsResolution(
    window: string, anchors: seq<string>, snap: bool, normalize: string -> string, ends: seq<int>)
  {
    exists cut :: IsSnappedCut(window, anchors, snap, normalize, cut, ends)
  }

  ghost predicate IsSnappedCut(
    window: string, anchors: seq<string>, snap: bool, normalize: string -> string, cut: seq<int>, ends: seq<int>)
  {
    && cut != []
    && IsCut(window, anchors, normalize, cut)
    && 0 <= cut[|cut| - 1] <= |window|
    && ends == cut[..|cut| - 1] + [if Snaps(window, cut[|cut| - 1], snap) then |window| else cut[|cut| - 1]]
  }

  /** An answer has one cut per draft; every cut lies in the window, after the one before it. */
  lemma ResolutionIsOrdered(
    window: string, anchors: seq<string>, snap: bool, normalize: string -> string, ends: seq<int>)
    requires IsResolution(window, anchors, snap, normalize, ends)
    ensures |ends| == |anchors| > 0
    ensures forall i | 0 <= i < |ends| :: 0 < ends[i] <= |window|
    ensures forall i | 0 <= i < |ends| - 1 :: ends[i] < ends[i + 1]
  {
    var cut :| IsSnappedCut(window, anchors, snap, normalize, cut, ends);
    assert forall i | 0 <= i < |cut| :: EndsAt(window, anchors[i], normalize, cut[i]);
    assert ends[..|ends| - 1] == cut[..|cut| - 1];
    forall i | 0 <= i < |ends|
      ensures 0 < ends[i] <= |window| && (i + 1 < |ends| ==> ends[i] < ends[i + 1])
    {
      assert EndsAt(window, anchors[i], normalize, cut[i]);
      assert i + 1 < |ends| ==> cut[i] < cut[i + 1];
    }
  }

  /** The anchors leave no choice: there is at most one answer. */
  lemma ResolutionIsUnique(
    window: string, anchors: seq<string>, snap: bool, normalize: string -> string, a: seq<int>, b: seq<int>)
    requires IsResolution(window, anchors, snap, normalize, a)
    requires IsResolution(window, anchors, snap, normalize, b)
    ensures a == b
  {
    var cutA :| IsSnappedCut(window, anchors, snap, normalize, cutA, a);
    var cutB :| IsSnappedCut(window, anchors, snap, normalize, cutB, b);
    forall i | 0 <= i < |anchors|
      ensures cutA[i] == cutB[i]
    {
      EndsAtUnique(window, anchors[i], normalize, cutA[i], cutB[i]);
    }
    assert cutA == cutB;
  }

  /** Why a draft was sent back to the model. */
  datatype Reason =
    | NotFound(index: nat)
    | Ambiguous(index: nat, count: nat, folded: bool)
    | OutOfOrder(index: nat)

  /** What a reason says about its anchor. */
  ghost predicate IsTrue(window: string, anchors: seq<string>, normalize: string -> string, reason: Reason)
    requires reason.index < |anchors|
  {
    var anchor := anchors[reason.index];
    match reason
    case NotFound(_) =>
      !Occurs(window, anchor) && !Occurs(Fold(window), Fold(normalize(anchor)))
    case Ambiguous(_, count, folded) =>
      && count > 1
      && folded == !Occurs(window, anchor)
      && (exists starts :: |starts| == count && AreStarts(window, anchor, normalize, folded, starts))
      && (forall end :: !EndsAt(window, anchor, normalize, end))
    case OutOfOrder(i) =>
      exists e, j, e' ::
        0 <= j < i && EndsAt(window, anchor, normalize, e) && EndsAt(window, anchors[j], normalize, e') && e <= e'
  }

  ghost predicate AreTrue(window: string, anchors: seq<string>, normalize: string -> string, reasons: seq<Reason>)
  {
    forall i | 0 <= i < |reasons| :: reasons[i].index < |anchors| && IsTrue(window, anchors, normalize, reasons[i])
  }

  /** The anchor points at no one place. */
  ghost predicate HasNoPlace(window: string, anchor: string, normalize: string -> string)
  {
    forall end :: !EndsAt(window, anchor, normalize, end)
  }

  ghost predicate IsReported(reasons: seq<Reason>, i: int)
  {
    exists k :: 0 <= k < |reasons| && reasons[k].index == i
  }

  /**
   Among the first `count` anchors every one without a place is reported, in order; only the first reason may be about
   order, and up to there all is well.
   */
  ghost predicate IsReport(
    window: string, anchors: seq<string>, normalize: string -> string, count: nat, reasons: seq<Reason>)
    requires count <= |anchors|
  {
    && (forall k | 0 <= k < |reasons| :: reasons[k].index < count && (reasons[k].OutOfOrder? ==> k == 0))
    && (forall j, k | 0 <= j < k < |reasons| :: reasons[j].index < reasons[k].index)
    && (forall i | 0 <= i < count && HasNoPlace(window, anchors[i], normalize) :: IsReported(reasons, i))
    && (reasons != [] ==> IsFineUpTo(window, anchors, normalize, reasons[0].index))
  }

  ghost predicate IsFineUpTo(window: string, anchors: seq<string>, normalize: string -> string, count: nat)
  {
    count <= |anchors| && exists cut :: IsCut(window, anchors[..count], normalize, cut)
  }

  lemma ReportMore(
    window: string, anchors: seq<string>, normalize: string -> string, count: nat, reasons: seq<Reason>,
    reason: Reason)
    requires count < |anchors| && IsReport(window, anchors, normalize, count, reasons) && reason.index == count
    requires reasons == [] ==> IsFineUpTo(window, anchors, normalize, count)
    requires reason.OutOfOrder? ==> reasons == []
    ensures IsReport(window, anchors, normalize, count + 1, reasons + [reason])
  {
    var more := reasons + [reason];
    assert IsFineUpTo(window, anchors, normalize, more[0].index);
    forall i | 0 <= i < count + 1 && HasNoPlace(window, anchors[i], normalize) ensures IsReported(more, i) {
      if i < count {
        var k :| 0 <= k < |reasons| && reasons[k].index == i;
        assert more[k].index == i;
      } else {
        assert more[|reasons|].index == i;
      }
    }
  }

  lemma OneMoreTrue(
    window: string, anchors: seq<string>, normalize: string -> string, reasons: seq<Reason>, reason: Reason)
    requires AreTrue(window, anchors, normalize, reasons)
    requires reason.index < |anchors| && IsTrue(window, anchors, normalize, reason)
    ensures AreTrue(window, anchors, normalize, reasons + [reason])
  {
  }

  /** All places where the anchor stands, exactly or up to folding. */
  ghost predicate AreStarts(window: string, anchor: string, normalize: string -> string, folded: bool, starts: seq<int>)
  {
    if folded then IsAllOccurrences(Fold(window), Fold(normalize(anchor)), starts)
    else IsAllOccurrences(window, anchor, starts)
  }

  /** Finds the occurrences of one anchor: exact ones, or, only when there are none, those up to folding. */
  method Locate(window: string, anchor: string, normalize: string -> string, cache: Option<string>)
    returns (starts: seq<int>, matchLen: nat, matchedByFold: bool, foldedWindow: Option<string>)
    requires cache.Some? ==> cache.value == Fold(window)
    ensures foldedWindow.Some? ==> foldedWindow.value == Fold(window)
    ensures starts == [] ==> !Occurs(window, anchor) && !Occurs(Fold(window), Fold(normalize(anchor)))
    ensures starts != [] ==> matchedByFold == !Occurs(window, anchor)
    ensures starts != [] ==> AreStarts(window, anchor, normalize, matchedByFold, starts)
    ensures |starts| != 1 ==> forall end :: !EndsAt(window, anchor, normalize, end)
    ensures |starts| == 1 ==> EndsAt(window, anchor, normalize, starts[0] + matchLen)
    ensures |starts| == 1 ==> 0 < starts[0] + matchLen <= |window|
  {
    foldedWindow := cache;
    matchLen := |anchor|;
    starts := FindAllOverlapping(window, anchor);
    matchedByFold := false;
    if starts == [] {
      assert !Occurs(window, anchor);
      if foldedWindow.None? {
        var folded := FoldForMatch(window);
        foldedWindow := Some(folded);
      }
      var normalizedAnchor := normalize(anchor);
      var foldedAnchor := FoldForMatch(normalizedAnchor);
      starts := FindAllOverlapping(foldedWindow.value, foldedAnchor);
      if starts != [] {
        matchedByFold := true;
        matchLen := |normalizedAnchor|;
      }
      UniqueIfAlone(foldedWindow.value, foldedAnchor, starts);
    } else {
      assert starts[0] in starts;
      UniqueIfAlone(window, anchor, starts);
    }
  }

  lemma UniqueIfAlone(haystack: string, needle: string, starts: seq<int>)
    requires IsAllOccurrences(haystack, needle, starts)
    ensures starts == [] <==> !Occurs(haystack, needle)
    ensures |starts| == 1 ==> OccursOnlyAt(haystack, needle, starts[0])
    ensures |starts| != 1 ==> forall i :: !OccursOnlyAt(haystack, needle, i)
  {
    if starts != [] {
      assert starts[0] in starts;
      if |starts| > 1 {
        assert starts[1] in starts && starts[0] < starts[1];
      }
    }
  }

  lemma RejectedAnchor(window: string, anchors: seq<string>, normalize: string -> string, i: nat)
    requires i < |anchors| && forall end :: !EndsAt(window, anchors[i], normalize, end)
    ensures NoCut(window, anchors, normalize)
  {
    forall cut ensures !IsCut(window, anchors, normalize, cut) {
      if |cut| == |anchors| {
        assert !EndsAt(window, anchors[i], normalize, cut[i]);
      }
    }
  }

  lemma RejectedOrder(window: string, anchors: seq<string>, normalize: string -> string, i: nat, e: int, e': int)
    requires 0 < i < |anchors| && e <= e'
    requires EndsAt(window, anchors[i], normalize, e) && EndsAt(window, anchors[i - 1], normalize, e')
    ensures NoCut(window, anchors, normalize)
  {
    forall cut ensures !IsCut(window, anchors, normalize, cut) {
      if && |cut| == |anchors| && EndsAt(window, anchors[i], normalize, cut[i])
         && EndsAt(window, anchors[i - 1], normalize, cut[i - 1])
      {
        EndsAtUnique(window, anchors[i], normalize, cut[i], e);
        EndsAtUnique(window, anchors[i - 1], normalize, cut[i - 1], e');
        assert cut[i - 1] >= cut[i];
      }
    }
  }

  /** The first `idx` anchors are cut in order, the last of them at `pos`. */
  ghost predicate IsCutSoFar(
    window: string, anchors: seq<string>, normalize: string -> string, idx: nat, ends: seq<int>, pos: int)
  {
    && idx <= |anchors| && IsCut(window, anchors[..idx], normalize, ends)
    && pos == (if ends == [] then 0 else ends[|ends| - 1])
    && 0 <= pos <= |window| && (ends != [] ==> pos > 0)
  }

  lemma OneMoreCut(
    window: string, anchors: seq<string>, normalize: string -> string, idx: nat, ends: seq<int>, pos: int, end: int)
    requires idx < |anchors| && IsCutSoFar(window, anchors, normalize, idx, ends, pos)
    requires EndsAt(window, anchors[idx], normalize, end) && pos < end <= |window|
    ensures IsCutSoFar(window, anchors, normalize, idx + 1, ends + [end], end)
  {
    assert anchors[..idx + 1] == anchors[..idx] + [anchors[idx]];
    var more := ends + [end];
    forall i | 0 <= i < |more| ensures EndsAt(window, anchors[..idx + 1][i], normalize, more[i]) {
      assert i < idx ==> EndsAt(window, anchors[..idx][i], normalize, ends[i]);
    }
  }

  /**
   Where the search stands after `idx` anchors: all cut so far, or the draft is rejected, with every reason up to here.
   */
  ghost predicate IsSearch(
    window: string, anchors: seq<string>, normalize: string -> string, idx: nat, ends: seq<int>, pos: int,
    reasons: seq<Reason>)
  {
    && idx <= |anchors|
    && AreTrue(window, anchors, normalize, reasons) && IsReport(window, anchors, normalize, idx, reasons)
    && if reasons == [] then IsCutSoFar(window, anchors, normalize, idx, ends, pos)
       else NoCut(window, anchors, normalize)
  }

  lemma SearchRejects(
    window: string, anchors: seq<string>, normalize: string -> string, idx: nat, ends: seq<int>, pos: int,
    reasons: seq<Reason>, reason: Reason)
    requires idx < |anchors| && IsSearch(window, anchors, normalize, idx, ends, pos, reasons)
    requires reason.index == idx && !reason.OutOfOrder? && IsTrue(window, anchors, normalize, reason)
    requires HasNoPlace(window, anchors[idx], normalize)
    ensures IsSearch(window, anchors, normalize, idx + 1, ends, pos, reasons + [reason])
  {
    RejectedAnchor(window, anchors, normalize, idx);
    OneMoreTrue(window, anchors, normalize, reasons, reason);
    ReportMore(window, anchors, normalize, idx, reasons, reason);
  }

  lemma SearchFindsDisorder(
    window: string, anchors: seq<string>, normalize: string -> string, idx: nat, ends: seq<int>, pos: int, end: int)
    requires idx < |anchors| && IsSearch(window, anchors, normalize, idx, ends, pos, [])
    requires EndsAt(window, anchors[idx], normalize, end) && 0 < end <= pos
    ensures IsSearch(window, anchors, normalize, idx + 1, ends, pos, [OutOfOrder(idx)])
  {
    assert EndsAt(window, anchors[..idx][idx - 1], normalize, ends[idx - 1]);
    RejectedOrder(window, anchors, normalize, idx, end, ends[idx - 1]);
    OneMoreTrue(window, anchors, normalize, [], OutOfOrder(idx));
    ReportMore(window, anchors, normalize, idx, [], OutOfOrder(idx));
    assert [] + [OutOfOrder(idx)] == [OutOfOrder(idx)];
  }

  lemma SearchGoesOn(
    window: string, anchors: seq<string>, normalize: string -> string, idx: nat, ends: seq<int>, pos: int,
    reasons: seq<Reason>, end: int)
    requires idx < |anchors| && IsSearch(window, anchors, normalize, idx, ends, pos, reasons)
    requires EndsAt(window, anchors[idx], normalize, end) && 0 < end <= |window| && (reasons == [] ==> pos < end)
    ensures IsSearch(window, anchors, normalize, idx + 1, ends + [end], end, reasons)
  {
    if reasons == [] {
      OneMoreCut(window, anchors, normalize, idx, ends, pos, end);
    }
  }

  /** The draft's anchors are cut positions, or it is sent back with all reasons, true ones; there is nothing else. */
  method ResolveBoundaries(window: string, anchors: seq<string>, snap: bool, normalize: string -> string)
    returns (r: Result<seq<int>, seq<Reason>>)
    requires anchors != []
    ensures r.Ok? ==> IsResolution(window, anchors, snap, normalize, r.value)
    ensures r.Err? ==> forall ends :: !IsResolution(window, anchors, snap, normalize, ends)
    ensures r.Err? ==> r.error != [] && AreTrue(window, anchors, normalize, r.error)
    ensures r.Err? ==> IsReport(window, anchors, normalize, |anchors|, r.error)
  {
    var reasons: seq<Reason> := [];
    var ends: seq<int> := [];
    var pos := 0;
    var orderingValid := true;
    var foldedWindow: Option<string> := None;
    for idx := 0 to |anchors|
      invariant foldedWindow.Some? ==> foldedWindow.value == Fold(window)
      invariant orderingValid == (reasons == [])
      invariant IsSearch(window, anchors, normalize, idx, ends, pos, reasons)
    {
      var anchor := anchors[idx];
      var starts, matchLen, matchedByFold;
      starts, matchLen, matchedByFold, foldedWindow := Locate(window, anchor, normalize, foldedWindow);
      if starts == [] {
        SearchRejects(window, anchors, normalize, idx, ends, pos, reasons, NotFound(idx));
        reasons := reasons + [NotFound(idx)];
        orderingValid := false;
        continue;
      }
      if |starts| > 1 {
        SearchRejects(window, anchors, normalize, idx, ends, pos, reasons, Ambiguous(idx, |starts|, matchedByFold));
        reasons := reasons + [Ambiguous(idx, |starts|, matchedByFold)];
        orderingValid := false;
        continue;
      }
      var end := starts[0] + matchLen;
      if orderingValid && end <= pos {
        SearchFindsDisorder(window, anchors, normalize, idx, ends, pos, end);
        reasons := reasons + [OutOfOrder(idx)];
        orderingValid := false;
        continue;
      }
      SearchGoesOn(window, anchors, normalize, idx, ends, pos, reasons, end);
      ends := ends + [end];
      pos := end;
    }
    if reasons != [] {
      return Err(reasons);
    }
    assert anchors[..|anchors|] == anchors;
    SnappingResolves(window, anchors, snap, normalize, ends);
    if snap && ends[|ends| - 1] < |window| && IsBlank(window[ends[|ends| - 1]..]) {
      ends := ends[|ends| - 1 := |window|];
    }
    return Ok(ends);
  }

  lemma SnappingResolves(window: string, anchors: seq<string>, snap: bool, normalize: string -> string, cut: seq<int>)
    requires cut != [] && IsCut(window, anchors, normalize, cut) && 0 <= cut[|cut| - 1] <= |window|
    ensures var last := cut[|cut| - 1];
            IsResolution(window, anchors, snap, normalize,
                         if Snaps(window, last, snap) then cut[|cut| - 1 := |window|] else cut)
  {
    var last := cut[|cut| - 1];
    var ends := if Snaps(window, last, snap) then cut[|cut| - 1 := |window|] else cut;
    assert IsSnappedCut(window, anchors, snap, normalize, cut, ends);
  }

  ghost predicate NoCut(window: string, anchors: seq<string>, normalize: string -> string)
  {
    forall cut :: !IsCut(window, anchors, normalize, cut)
  }
}
