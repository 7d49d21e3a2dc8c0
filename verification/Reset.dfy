/** The reset as code. */
module Reset {
  import opened Wrappers
  import opened SourceText
  import opened EpisodeFiles
  import opened Ledger
  import opened Tiling
  import opened PlanSpec
  import opened ResetSpec
  import opened Planner

  /** Checks what a reset from `from` > 1 demands; the cursor it returns is the end of episode from-1. */
  method ResolvePartialResetCursor(p: Project, sources: seq<SourceDoc>, from: int)
    returns (r: Result<Place, ResetError>)
    requires DistinctRels(sources) && from > 1
    ensures r.Ok? ==> exists ranges :: CanKeep(p, sources, from, ranges) && r.value == LastPlace(ranges)
    ensures r.Err? ==> forall ranges :: !CanKeep(p, sources, from, ranges)
    ensures r.Err? ==> IsTrueReason(p, sources, from, r.error)
  {
    if !p.episodes.Listed? {
      return Err(BadShape);
    }
    var entries := p.episodes.entries;
    var indexed := IndexRows(entries);
    if indexed.Err? {
      return Err(indexed.error);
    }
    var byNum := indexed.value;
    if from !in byNum {
      return Err(UnknownEpisode);
    }
    var gap := FirstGap(byNum.Keys, from);
    if gap != from {
      NoRowNoRange(entries, byNum, gap, from);
      return Err(MissingEpisode(gap));
    }
    if Mismatched(p.fingerprints, sources) != {} {
      return Err(SourceTextChanged);
    }
    r := FollowRanges(entries, byNum, sources, from);
  }

  /** `byNum` finds every row of a clean ledger under its number. */
  ghost predicate IsIndex(entries: seq<Entry>, byNum: map<int, Entry>)
  {
    && (forall i | 0 <= i < |entries| :: IsIndexed(entries[i], byNum))
    && forall n | n in byNum :: exists i :: 0 <= i < |entries| && NumOf(entries[i]) == Some(n)
  }

  ghost predicate IsIndexed(e: Entry, byNum: map<int, Entry>)
  {
    NumOf(e).Some? && NumOf(e).value in byNum && byNum[NumOf(e).value] == e
  }

  lemma IndexMore(entries: seq<Entry>, byNum: map<int, Entry>, e: Entry)
    requires IsCleanLedger(entries) && IsIndex(entries, byNum)
    requires NumOf(e).Some? && NumOf(e).value >= 1 && NumOf(e).value !in byNum
    ensures IsCleanLedger(entries + [e]) && IsIndex(entries + [e], byNum[NumOf(e).value := e])
  {
    var all, more := entries + [e], byNum[NumOf(e).value := e];
    forall i | 0 <= i < |all| ensures IsIndexed(all[i], more) {
      if i < |entries| {
        assert IsIndexed(entries[i], byNum);
      }
    }
    forall n | n in more ensures exists i :: 0 <= i < |all| && NumOf(all[i]) == Some(n) {
      if n in byNum {
        var i :| 0 <= i < |entries| && NumOf(entries[i]) == Some(n);
        assert NumOf(all[i]) == Some(n);
      } else {
        assert NumOf(all[|entries|]) == Some(n);
      }
    }
    forall i, j | 0 <= i < j < |all| ensures NumOf(all[i]) != NumOf(all[j]) {
      assert IsIndexed(all[i], more);
      assert j == |entries| ==> IsIndexed(entries[i], byNum);
    }
  }

  /** The rows by number; refused unless every row is an object with a positive number of its own. */
  method IndexRows(entries: seq<Entry>) returns (r: Result<map<int, Entry>, ResetError>)
    ensures r.Err? ==> !IsCleanLedger(entries)
    ensures r.Err? ==> || (r.error == BadNumber
                           && exists e :: e in entries && (NumOf(e).None? || NumOf(e).value < 1))
                       || (r.error.DuplicateNumber? && SharesNumber(entries, r.error.num))
    ensures r.Ok? ==> IsCleanLedger(entries) && IsIndex(entries, r.value)
  {
    var byNum: map<int, Entry> := map[];
    for i := 0 to |entries|
      invariant IsCleanLedger(entries[..i]) && IsIndex(entries[..i], byNum)
    {
      var num := NumOf(entries[i]);
      assert entries[i] in entries;
      if num.None? {
        return Err(BadNumber);
      }
      if num.value < 1 {
        return Err(BadNumber);
      }
      if num.value in byNum {
        var k :| 0 <= k < i && NumOf(entries[..i][k]) == num;
        assert NumOf(entries[k]) == NumOf(entries[i]);
        return Err(DuplicateNumber(num.value));
      }
      IndexMore(entries[..i], byNum, entries[i]);
      assert entries[..i] + [entries[i]] == entries[..i + 1];
      byNum := byNum[num.value := entries[i]];
    }
    assert entries[..|entries|] == entries;
    return Ok(byNum);
  }

  /** The first of 1..from-1 that is missing, or `from`. Only numbers that exist are looked at. */
  method FirstGap(nums: set<int>, from: int) returns (expected: int)
    requires from > 1 && forall n | n in nums :: n >= 1
    ensures 1 <= expected <= from
    ensures forall n | 1 <= n < expected :: n in nums
    ensures expected != from ==> expected !in nums
  {
    expected := 1;
    var below := Sorted(set n | n in nums && n < from);
    for i := 0 to |below|
      invariant expected == i + 1 <= from
      invariant forall k | 0 <= k < i :: below[k] == k + 1
      invariant forall n | 1 <= n < expected :: n in nums
    {
      assert below[i] in below;
      if below[i] != expected {
        assert i > 0 ==> below[i - 1] < below[i];
        assert expected < below[i];
        forall k | 0 <= k < |below| ensures below[k] != expected {
          assert k > i ==> below[i] < below[k];
        }
        assert expected !in below;
        break;
      }
      expected := expected + 1;
    }
    if expected != from && expected == |below| + 1 {
      assert expected in below ==> exists k :: 0 <= k < |below| && below[k] == expected;
    }
  }

  lemma NoRowNoRange(entries: seq<Entry>, byNum: map<int, Entry>, num: int, from: int)
    requires IsIndex(entries, byNum) && 1 <= num < from
    requires num !in byNum || Coords(byNum[num]).None?
    ensures forall ranges | |ranges| == from - 1 :: !HasRanges(entries, ranges)
  {
    forall ranges: seq<Range> | |ranges| == from - 1 ensures !HasRanges(entries, ranges) {
      forall i | 0 <= i < |entries| ensures IsIndexed(entries[i], byNum) {
      }
      assert !HasRange(entries, num - 1 + 1, ranges[num - 1]);
    }
  }

  /** The ranges of episodes 1..n of an indexed ledger, when all have one. */
  ghost predicate AreRangesOf(byNum: map<int, Entry>, ranges: seq<Range>)
  {
    forall k | 0 <= k < |ranges| :: IsRangeAt(byNum, k + 1, ranges[k])
  }

  ghost predicate IsRangeAt(byNum: map<int, Entry>, num: int, r: Range)
  {
    num in byNum && Coords(byNum[num]) == Some(r)
  }

  lemma IndexedRanges(entries: seq<Entry>, byNum: map<int, Entry>, ranges: seq<Range>)
    requires IsIndex(entries, byNum)
    ensures AreRangesOf(byNum, ranges) <==> HasRanges(entries, ranges)
  {
    forall k | 0 <= k < |ranges|
      ensures IsRangeAt(byNum, k + 1, ranges[k]) <==> HasRange(entries, k + 1, ranges[k])
    {
      if k + 1 in byNum {
        var i :| 0 <= i < |entries| && NumOf(entries[i]) == Some(k + 1);
        assert IsIndexed(entries[i], byNum);
      }
      if HasRange(entries, k + 1, ranges[k]) {
        var i :| 0 <= i < |entries| && NumOf(entries[i]) == Some(k + 1) && Coords(entries[i]) == Some(ranges[k]);
        assert IsIndexed(entries[i], byNum);
      }
    }
  }

  lemma BrokenAt(entries: seq<Entry>, byNum: map<int, Entry>, sources: seq<SourceDoc>, from: int, broken: seq<Range>)
    requires IsIndex(entries, byNum) && |broken| < from
    requires AreRangesOf(byNum, broken) && !IsTiling(sources, broken)
    ensures forall all | |all| == from - 1 && HasRanges(entries, all) :: !IsTiling(sources, all)
  {
    forall all: seq<Range> | |all| == from - 1 && HasRanges(entries, all) ensures !IsTiling(sources, all) {
      IndexedRanges(entries, byNum, all);
      assert all[..|broken|] == broken;
      if IsTiling(sources, all) {
        TilingPrefix(sources, all, |broken|);
      }
    }
  }

  /** All files hold only whitespace. */
  predicate AllBlank(docs: seq<SourceDoc>)
  {
    forall i | 0 <= i < |docs| :: IsBlank(docs[i].text)
  }

  /** The validator's rule for going on from the end of the previous range. */
  predicate StartsAfter(sources: seq<SourceDoc>, prev: Place, rel: string, start: int)
    ensures 0 <= Idx(sources, prev.rel) && 0 <= prev.offset <= |TextAt(sources, prev.rel)| ==>
              StartsAfter(sources, prev, rel, start) == Reaches(sources, prev.rel, prev.offset, rel, start)
  {
    if rel == prev.rel then start == prev.offset
    else
      var prevAt, at := Idx(sources, prev.rel), Idx(sources, rel);
      && prevAt >= 0 && at > prevAt
      && 0 <= prev.offset <= |sources[prevAt].text| && IsBlank(sources[prevAt].text[prev.offset..])
      && AllBlank(sources[prevAt + 1..at])
      && start == 0
  }

  /** What is wrong with going on to `r` as the range of episode `num`. */
  function FaultOf(sources: seq<SourceDoc>, num: int, prev: Option<Place>, r: Range): Option<ResetError>
  {
    var at := Idx(sources, r.rel);
    if at < 0 || !(0 <= r.start < r.end <= |sources[at].text|) then Some(InvalidRange(num))
    else if prev.None? then
      if num != 1 then Some(NoRangeBefore(num))
      else if r.start != 0 || !AllBlank(sources[..at]) then Some(WrongStart(num))
      else None
    else if !StartsAfter(sources, prev.value, r.rel, r.start) then Some(WrongStart(num))
    else None
  }

  /** Nothing is wrong exactly when the tiling goes on. */
  lemma NoFaultIffTiling(sources: seq<SourceDoc>, ranges: seq<Range>, r: Range)
    requires IsTiling(sources, ranges)
    ensures var prev := if ranges == [] then None else Some(LastPlace(ranges));
            FaultOf(sources, |ranges| + 1, prev, r).None? <==> IsTiling(sources, ranges + [r])
  {
    if ranges == [] {
      assert ranges + [r] == [r];
      OpensIffBlank(sources, r);
    } else {
      assert InBounds(sources, ranges[|ranges| - 1]);
      GoesOnIff(sources, ranges, r);
    }
  }

  lemma OpensIffBlank(sources: seq<SourceDoc>, r: Range)
    ensures FaultOf(sources, 1, None, r).None? <==> IsTiling(sources, [r])
  {
    assert [r][0] == r;
    if InBounds(sources, r) {
      var at := Idx(sources, r.rel);
      assert AllBlank(sources[..at]) <==> BlankBetween(sources, 0, at);
    }
  }

  lemma GoesOnIff(sources: seq<SourceDoc>, ranges: seq<Range>, r: Range)
    requires IsTiling(sources, ranges) && ranges != []
    ensures IsTiling(sources, ranges + [r]) <==>
            InBounds(sources, r) && Reaches(sources, ranges[|ranges| - 1].rel, ranges[|ranges| - 1].end, r.rel, r.start)
  {
    var all, n := ranges + [r], |ranges|;
    if IsTiling(sources, all) {
      assert InBounds(sources, all[n]) && RunsOn(sources, all[n - 1], all[n]);
    }
    if InBounds(sources, r) && RunsOn(sources, ranges[n - 1], r) {
      GoesOn(sources, ranges, r);
    }
  }

  lemma GoesOn(sources: seq<SourceDoc>, ranges: seq<Range>, r: Range)
    requires IsTiling(sources, ranges) && ranges != []
    requires InBounds(sources, r) && RunsOn(sources, ranges[|ranges| - 1], r)
    ensures IsTiling(sources, ranges + [r])
  {
    var all := ranges + [r];
    forall i | 0 < i < |all| ensures RunsOn(sources, all[i - 1], all[i]) {
      if i < |ranges| {
        assert RunsOn(sources, ranges[i - 1], ranges[i]);
      }
    }
  }

  /** Follows the ranges of episodes 1..from-1 through the sources. */
  method FollowRanges(entries: seq<Entry>, byNum: map<int, Entry>, sources: seq<SourceDoc>, from: int)
    returns (r: Result<Place, ResetError>)
    requires DistinctRels(sources) && from > 1
    requires IsIndex(entries, byNum) && forall n | 1 <= n < from :: n in byNum
    ensures r.Ok? ==> exists ranges ::
              |ranges| == from - 1 && HasRanges(entries, ranges) && IsTiling(sources, ranges)
                  && r.value == LastPlace(ranges)
    ensures r.Err? ==> forall ranges | |ranges| == from - 1 && HasRanges(entries, ranges) :: !IsTiling(sources, ranges)
    ensures r.Err? ==> IsTrueFault(entries, sources, from, r.error)
  {
    var prev: Option<Place> := None;
    ghost var ranges: seq<Range> := [];
    for num := 1 to from
      invariant prev.Some? ==> |ranges| == num - 1 > 0 && prev.value == LastPlace(ranges)
      invariant prev.None? && num > 1 ==> forall all | |all| == from - 1 :: !HasRanges(entries, all)
      invariant AreRangesOf(byNum, ranges) && IsTiling(sources, ranges)
      invariant num == 1 ==> ranges == []
      invariant prev.None? && num > 1 ==> Coords(byNum[num - 1]).None?
    {
      var coords := Coords(byNum[num]);
      if coords.None? {
        NoRowNoRange(entries, byNum, num, from);
        prev := None;
        continue;
      }
      ghost var longer := ranges + [coords.value];
      if prev.Some? || num == 1 {
        NoFaultIffTiling(sources, ranges, coords.value);
        assert AreRangesOf(byNum, longer);
      }
      var fault := FaultOf(sources, num, prev, coords.value);
      if fault.Some? {
        if prev.Some? || num == 1 {
          BrokenAt(entries, byNum, sources, from, longer);
        }
        FaultIsTrue(entries, byNum, sources, num, from, ranges, prev, coords.value);
        return Err(fault.value);
      }
      prev := Some(Place(coords.value.rel, coords.value.end));
      ranges := longer;
    }
    if prev.None? {
      IndexedRange(entries, byNum, from - 1);
      return Err(NoRange(from - 1));
    }
    IndexedRanges(entries, byNum, ranges);
    return Ok(prev.value);
  }

  /** The range a number has is that of the row found under it. */
  lemma IndexedRange(entries: seq<Entry>, byNum: map<int, Entry>, num: int)
    requires IsIndex(entries, byNum) && num in byNum
    ensures forall r :: HasRange(entries, num, r) <==> Coords(byNum[num]) == Some(r)
  {
    forall r ensures HasRange(entries, num, r) <==> Coords(byNum[num]) == Some(r) {
      if HasRange(entries, num, r) {
        var i :| 0 <= i < |entries| && NumOf(entries[i]) == Some(num) && Coords(entries[i]) == Some(r);
        assert IsIndexed(entries[i], byNum);
      }
      if Coords(byNum[num]) == Some(r) {
        var i :| 0 <= i < |entries| && NumOf(entries[i]) == Some(num);
        assert IsIndexed(entries[i], byNum);
      }
    }
  }

  /** A fault found on the way says something true about the row it names. */
  lemma FaultIsTrue(
    entries: seq<Entry>, byNum: map<int, Entry>, sources: seq<SourceDoc>, num: int, from: int, ranges: seq<Range>,
    prev: Option<Place>, r: Range)
    requires IsIndex(entries, byNum) && 1 <= num < from && num in byNum && Coords(byNum[num]) == Some(r)
    requires num > 1 ==> num - 1 in byNum
    requires prev.Some? ==> |ranges| == num - 1 > 0 && prev.value == LastPlace(ranges)
    requires prev.None? && num > 1 ==> Coords(byNum[num - 1]).None?
    requires AreRangesOf(byNum, ranges) && IsTiling(sources, ranges)
    requires FaultOf(sources, num, prev, r).Some?
    ensures IsTrueFault(entries, sources, from, FaultOf(sources, num, prev, r).value)
  {
    IndexedRange(entries, byNum, num);
    assert HasRange(entries, num, r);
    if num > 1 {
      IndexedRange(entries, byNum, num - 1);
    }
    if prev.Some? {
      var last := ranges[num - 2];
      assert IsRangeAt(byNum, num - 2 + 1, last) && InBounds(sources, last);
      assert HasRange(entries, num - 1, last);
      assert InBounds(sources, r) && !StartsAfter(sources, prev.value, r.rel, r.start) ==> !RunsOn(sources, last, r);
    } else if num == 1 && InBounds(sources, r) {
      assert AllBlank(sources[..Idx(sources, r.rel)]) <==> BlankBetween(sources, 0, Idx(sources, r.rel));
    }
  }

  // ----- scanning

  /** `byNum` groups the rows by number, duplicates included. */
  ghost predicate IsGrouped(entries: seq<Entry>, byNum: map<int, seq<Entry>>)
  {
    forall num :: IsGroup(entries, byNum, num)
  }

  ghost predicate IsGroup(entries: seq<Entry>, byNum: map<int, seq<Entry>>, num: int)
  {
    Dupes(entries, num) == if num in byNum then byNum[num] else []
  }

  ghost predicate IsMarked(entries: seq<Entry>, num: int)
  {
    exists i :: 0 <= i < |entries| && NumOf(entries[i]) == Some(num) && entries[i].status == Consumed
  }

  /** The rows grouped by number, and the numbers some row marks consumed. */
  method GroupRows(entries: seq<Entry>) returns (byNum: map<int, seq<Entry>>, marked: set<int>)
    ensures IsGrouped(entries, byNum) && HasAllKeys(entries, byNum)
    ensures forall num :: num in marked <==> IsMarked(entries, num)
  {
    byNum, marked := map[], {};
    for i := 0 to |entries|
      invariant IsGrouped(entries[..i], byNum) && HasAllKeys(entries[..i], byNum)
      invariant forall num :: num in marked <==> IsMarked(entries[..i], num)
    {
      var e := entries[i];
      assert entries[..i + 1] == entries[..i] + [e];
      GroupMore(entries[..i], byNum, e);
      KeysMore(entries[..i], byNum, e);
      MarkMore(entries[..i], e);
      if NumOf(e).None? {
        continue;
      }
      var num := NumOf(e).value;
      if e.status == Consumed {
        marked := marked + {num};
      }
      byNum := Filed(byNum, num, e);
    }
    assert entries[..|entries|] == entries;
  }

  lemma MarkMore(entries: seq<Entry>, e: Entry)
    ensures forall num :: IsMarked(entries + [e], num) <==>
                          IsMarked(entries, num) || (NumOf(e) == Some(num) && e.status == Consumed)
  {
    var all := entries + [e];
    forall num
      ensures IsMarked(all, num) <==> IsMarked(entries, num) || (NumOf(e) == Some(num) && e.status == Consumed)
    {
      if IsMarked(entries, num) {
        var i :| 0 <= i < |entries| && NumOf(entries[i]) == Some(num) && entries[i].status == Consumed;
        assert all[i] == entries[i];
      }
      assert all[|entries|] == e;
    }
  }

  lemma GroupMore(entries: seq<Entry>, byNum: map<int, seq<Entry>>, e: Entry)
    requires IsGrouped(entries, byNum)
    ensures NumOf(e).None? ==> IsGrouped(entries + [e], byNum)
    ensures NumOf(e).Some? ==> IsGrouped(entries + [e], Filed(byNum, NumOf(e).value, e))
  {
    assert (entries + [e])[..|entries|] == entries;
    forall num
      ensures NumOf(e).None? ==> IsGroup(entries + [e], byNum, num)
      ensures NumOf(e).Some? ==> IsGroup(entries + [e], Filed(byNum, NumOf(e).value, e), num)
    {
      assert IsGroup(entries, byNum, num);
    }
  }

  function Filed(byNum: map<int, seq<Entry>>, num: int, e: Entry): map<int, seq<Entry>>
  {
    byNum[num := (if num in byNum then byNum[num] else []) + [e]]
  }

  /** The numbers with a group are the known ones. */
  ghost predicate HasAllKeys(entries: seq<Entry>, byNum: map<int, seq<Entry>>)
  {
    byNum.Keys == KnownNums(entries)
  }

  lemma KeysMore(entries: seq<Entry>, byNum: map<int, seq<Entry>>, e: Entry)
    requires HasAllKeys(entries, byNum)
    ensures NumOf(e).None? ==> HasAllKeys(entries + [e], byNum)
    ensures NumOf(e).Some? ==> HasAllKeys(entries + [e], Filed(byNum, NumOf(e).value, e))
  {
    KnownNumsAppend(entries, e);
  }

  /** The group of a number holds exactly its rows. */
  lemma {:induction false} DupesAreRows(entries: seq<Entry>, num: int)
    ensures forall e | e in Dupes(entries, num) ::
              exists k :: 0 <= k < |entries| && entries[k] == e && NumOf(e) == Some(num)
    ensures forall k | 0 <= k < |entries| && NumOf(entries[k]) == Some(num) :: entries[k] in Dupes(entries, num)
  {
    if entries != [] {
      var n := |entries| - 1;
      DupesAreRows(entries[..n], num);
      forall e | e in Dupes(entries, num)
        ensures exists k :: 0 <= k < |entries| && entries[k] == e && NumOf(e) == Some(num)
      {
        if e in Dupes(entries[..n], num) {
          var k :| 0 <= k < n && entries[..n][k] == e && NumOf(e) == Some(num);
          assert entries[k] == e;
        } else {
          assert entries[n] == e;
        }
      }
      forall k | 0 <= k < |entries| && NumOf(entries[k]) == Some(num) ensures entries[k] in Dupes(entries, num) {
        if k < n {
          assert entries[..n][k] == entries[k];
        }
      }
    }
  }

  /** All files that carry the number, whatever their padding. */
  method Aliases(files: Files, num: int) returns (paths: seq<string>)
    ensures forall name :: name in paths <==> name in files && EpisodeNumber(name) == Some(num)
    ensures NoDuplicates(paths)
  {
    paths := [];
    var all := set name | name in files && EpisodeNumber(name) == Some(num);
    var rest := all;
    while rest != {}
      invariant rest <= all
      invariant forall name :: name in paths <==> name in all && name !in rest
      invariant NoDuplicates(paths)
    {
      var name :| name in rest;
      paths := paths + [name];
      rest := rest - {name};
    }
  }

  /** Pure reading: which rows go, which episodes are consumed, which files are deleted and which set aside. */
  method Scan(p: Project, disk: Disk, from: int) returns (plan: ResetPlan)
    ensures IsScan(p, disk, from, plan)
  {
    var entries := Rows(p);
    var byNum, marked := GroupRows(entries);
    var candidates := Sorted(byNum.Keys + EpisodeNums(disk.files) + disk.products);
    var consumed: set<int> := {};
    var deletes, archives: seq<string> := [], [];
    for i := 0 to |candidates|
      invariant IsTally(entries, disk, from, candidates[..i], consumed)
      invariant IsSorted(entries, disk.files, from, candidates[..i], deletes, archives)
    {
      var num := candidates[i];
      assert candidates[..i + 1] == candidates[..i] + [num];
      assert num in candidates;
      if !InScope(from, num) {
        OutOfScope(entries, disk, from, candidates[..i], num, consumed, deletes, archives);
        continue;
      }
      var isConsumed, canRecreate, paths := Judge(entries, disk, byNum, marked, num);
      TallyMore(entries, disk, from, candidates[..i], consumed, num);
      if isConsumed {
        consumed := consumed + {num};
      }
      assert num !in candidates[..i];
      SortMore(entries, disk.files, from, candidates[..i], num, deletes, archives, paths);
      if canRecreate {
        deletes := deletes + paths;
      } else {
        archives := archives + paths;
      }
    }
    assert candidates[..|candidates|] == candidates;
    var nums := Sorted(set num | num in byNum.Keys && InScope(from, num));
    plan := ResetPlan(nums, consumed, deletes, archives);
    ScanIsComplete(p, disk, from, candidates, plan);
  }

  /** One number: is it consumed, can its files be made again, and which files are they. */
  method Judge(entries: seq<Entry>, disk: Disk, byNum: map<int, seq<Entry>>, marked: set<int>, num: int)
    returns (isConsumed: bool, canRecreate: bool, paths: seq<string>)
    requires IsGrouped(entries, byNum)
    requires forall n :: n in marked <==> IsMarked(entries, n)
    requires num in KnownNums(entries) || num in EpisodeNums(disk.files) || num in disk.products
    ensures isConsumed == IsConsumed(entries, disk, num)
    ensures canRecreate == Recreatable(entries, num)
    ensures forall name :: name in paths <==> name in disk.files && EpisodeNumber(name) == Some(num)
    ensures NoDuplicates(paths)
  {
    var dupes := if num in byNum then byNum[num] else [];
    assert IsGroup(entries, byNum, num);
    isConsumed := num in marked || num in disk.products || AnyProducts(disk, num, dupes);
    ConsumedByRows(entries, disk, num, marked, dupes);
    paths := Aliases(disk.files, num);
    canRecreate := dupes != [] && forall k | 0 <= k < |dupes| :: Coords(dupes[k]).Some?;
    RecreatableByRows(entries, num, dupes);
  }

  /** Rows without products of their own still count as consumed when the canonical places hold something. */
  predicate AnyProducts(disk: Disk, num: int, dupes: seq<Entry>)
  {
    if dupes == [] then HasDownstreamProducts(disk, num, NotText)
    else exists k | 0 <= k < |dupes| :: dupes[k].Entry? && HasDownstreamProducts(disk, num, dupes[k].script)
  }

  /** The numbered files of the numbers seen so far, split by whether they can be made again. */
  ghost predicate IsSorted(
    entries: seq<Entry>, files: Files, from: int, seen: seq<int>, deletes: seq<string>, archives: seq<string>)
  {
    && (forall name :: name in deletes <==>
          IsAffected(files, from, name) && EpisodeNumber(name).value in seen
              && Recreatable(entries, EpisodeNumber(name).value))
    && (forall name :: name in archives <==>
          IsAffected(files, from, name) && EpisodeNumber(name).value in seen
              && !Recreatable(entries, EpisodeNumber(name).value))
    && NoDuplicates(deletes) && NoDuplicates(archives)
  }

  /** The consumed numbers among those seen so far. */
  ghost predicate IsTally(entries: seq<Entry>, disk: Disk, from: int, seen: seq<int>, consumed: set<int>)
  {
    forall num :: num in consumed <==> num in seen && InScope(from, num) && IsConsumed(entries, disk, num)
  }

  lemma TallyMore(entries: seq<Entry>, disk: Disk, from: int, seen: seq<int>, consumed: set<int>, num: int)
    requires IsTally(entries, disk, from, seen, consumed) && InScope(from, num)
    ensures IsTally(entries, disk, from, seen + [num],
                    if IsConsumed(entries, disk, num) then consumed + {num} else consumed)
  {
  }

  lemma OutOfScope(
    entries: seq<Entry>, disk: Disk, from: int, seen: seq<int>, num: int, consumed: set<int>, deletes: seq<string>,
    archives: seq<string>)
    requires IsTally(entries, disk, from, seen, consumed)
             && IsSorted(entries, disk.files, from, seen, deletes, archives)
    requires !InScope(from, num)
    ensures IsTally(entries, disk, from, seen + [num], consumed)
    ensures IsSorted(entries, disk.files, from, seen + [num], deletes, archives)
  {
  }

  lemma ScanIsComplete(p: Project, disk: Disk, from: int, candidates: seq<int>, plan: ResetPlan)
    requires IsAscending(candidates, KnownNums(Rows(p)) + EpisodeNums(disk.files) + disk.products)
    requires IsAscending(plan.nums, set num | num in KnownNums(Rows(p)) && InScope(from, num))
    requires IsTally(Rows(p), disk, from, candidates, plan.consumed)
    requires IsSorted(Rows(p), disk.files, from, candidates, plan.deletes, plan.archives)
    ensures IsScan(p, disk, from, plan)
  {
    AllCandidates(Rows(p), disk, candidates);
  }

  lemma SortMore(
    entries: seq<Entry>, files: Files, from: int, seen: seq<int>, num: int, deletes: seq<string>, archives: seq<string>,
    paths: seq<string>)
    requires IsSorted(entries, files, from, seen, deletes, archives) && InScope(from, num) && num !in seen
    requires forall name :: name in paths <==> name in files && EpisodeNumber(name) == Some(num)
    requires NoDuplicates(paths)
    ensures Recreatable(entries, num) ==> IsSorted(entries, files, from, seen + [num], deletes + paths, archives)
    ensures !Recreatable(entries, num) ==> IsSorted(entries, files, from, seen + [num], deletes, archives + paths)
  {
    if Recreatable(entries, num) {
      JoinDistinct(deletes, paths);
    } else {
      JoinDistinct(archives, paths);
    }
  }

  lemma JoinDistinct(a: seq<string>, b: seq<string>)
    requires NoDuplicates(a) && NoDuplicates(b) && forall x | x in a :: x !in b
    ensures NoDuplicates(a + b)
  {
    var all := a + b;
    forall i, j | 0 <= i < j < |all| ensures all[i] != all[j] {
      if i < |a| <= j {
        assert all[i] in a && all[j] in b;
      }
    }
  }

  lemma ConsumedByRows(entries: seq<Entry>, disk: Disk, num: int, marked: set<int>, dupes: seq<Entry>)
    requires dupes == Dupes(entries, num)
    requires num in KnownNums(entries) || num in EpisodeNums(disk.files) || num in disk.products
    requires num in marked <==> IsMarked(entries, num)
    ensures num in marked || num in disk.products || AnyProducts(disk, num, dupes) <==> IsConsumed(entries, disk, num)
  {
    DupesAreRows(entries, num);
    if num in KnownNums(entries) {
      var i :| 0 <= i < |entries| && NumOf(entries[i]) == Some(num);
      assert entries[i] in dupes;
      forall k | 0 <= k < |entries| && RowIsConsumed(disk, num, entries[k])
        ensures num in marked || AnyProducts(disk, num, dupes)
      {
        assert entries[k] in dupes;
      }
      if AnyProducts(disk, num, dupes) {
        var k :| 0 <= k < |dupes| && dupes[k].Entry? && HasDownstreamProducts(disk, num, dupes[k].script);
        assert dupes[k] in dupes;
        var at :| 0 <= at < |entries| && entries[at] == dupes[k];
        assert RowIsConsumed(disk, num, entries[at]);
      }
    } else {
      NoDupes(entries, num);
    }
  }

  lemma NoDupes(entries: seq<Entry>, num: int)
    requires num !in KnownNums(entries)
    ensures Dupes(entries, num) == []
  {
    DupesAreRows(entries, num);
    assert Dupes(entries, num) != [] ==> Dupes(entries, num)[0] in Dupes(entries, num);
  }

  lemma KnownIffDupes(entries: seq<Entry>, num: int)
    ensures Dupes(entries, num) != [] <==> num in KnownNums(entries)
  {
    DupesAreRows(entries, num);
    assert Dupes(entries, num) != [] ==> Dupes(entries, num)[0] in Dupes(entries, num);
  }

  lemma RowsWithCoords(entries: seq<Entry>, num: int)
    ensures (forall e | e in Dupes(entries, num) :: Coords(e).Some?) <==>
            forall i | 0 <= i < |entries| && NumOf(entries[i]) == Some(num) :: Coords(entries[i]).Some?
  {
    DupesAreRows(entries, num);
  }

  lemma RecreatableByRows(entries: seq<Entry>, num: int, dupes: seq<Entry>)
    requires dupes == Dupes(entries, num)
    ensures Recreatable(entries, num) <==> dupes != [] && forall k | 0 <= k < |dupes| :: Coords(dupes[k]).Some?
  {
    KnownIffDupes(entries, num);
    RowsWithCoords(entries, num);
  }

  lemma AllCandidates(entries: seq<Entry>, disk: Disk, candidates: seq<int>)
    requires IsAscending(candidates, KnownNums(entries) + EpisodeNums(disk.files) + disk.products)
    ensures forall num | IsConsumed(entries, disk, num) :: num in candidates
    ensures forall name | name in disk.files && EpisodeNumber(name).Some? :: EpisodeNumber(name).value in candidates
  {
    forall num | IsConsumed(entries, disk, num) ensures num in candidates {
      if exists i :: 0 <= i < |entries| && RowIsConsumed(disk, num, entries[i]) {
        assert num in KnownNums(entries);
      }
    }
    forall name | name in disk.files && EpisodeNumber(name).Some? ensures EpisodeNumber(name).value in candidates {
      assert HasEpisodeFile(disk.files, EpisodeNumber(name).value);
    }
  }

  // ----- file disposal

  /** What a plan says about a directory: every file it lists is an episode file that is there, and is listed once. */
  ghost predicate IsPlanFor(files: Files, plan: ResetPlan)
  {
    && NoDuplicates(plan.deletes) && NoDuplicates(plan.archives)
    && (forall name | name in plan.deletes || name in plan.archives :: name in files && EpisodeNumber(name).Some?)
    && forall name | name in plan.deletes :: name !in plan.archives
  }

  /**
   Deletes, renames and drops the leftover text, stopping at the first operation that fails; `budget` is how many
   operations succeed before one does.
   */
  method ApplyFiles(files: Files, plan: ResetPlan, budget: nat)
    returns (ok: bool, after: Files, ghost homes: map<string, string>)
    requires IsPlanFor(files, plan)
    ensures ok == (budget >= Operations(plan, files))
    ensures ok ==> IsAllDone(files, after, plan, homes)
    ensures !ok ==> IsTidiedSoFar(files, after, plan, budget, homes)
  {
    ok, after := DeleteFiles(files, plan, budget);
    homes := map[];
    if !ok {
      return;
    }
    ok, after, homes := ArchiveFiles(files, after, plan, budget);
    if !ok {
      return;
    }
    RemainingStays(files, after, plan, homes);
    if REMAINING in after && |plan.deletes| + |plan.archives| == budget {
      return false, after, homes;
    }
    return true, after - {REMAINING}, homes;
  }

  method DeleteFiles(files: Files, plan: ResetPlan, budget: nat) returns (ok: bool, after: Files)
    requires IsPlanFor(files, plan)
    ensures ok == (budget >= |plan.deletes|)
    ensures ok ==> IsTidied(files, after, Names(plan.deletes), {}, map[])
    ensures !ok ==> IsTidiedSoFar(files, after, plan, budget, map[])
  {
    after := files;
    for i := 0 to |plan.deletes|
      invariant i <= budget
      invariant IsTidied(files, after, Names(plan.deletes[..i]), {}, map[])
    {
      if i == budget {
        assert First(plan.deletes, budget) == plan.deletes[..i];
        return false, after;
      }
      NamesMore(plan.deletes, i);
      DeleteOne(files, after, Names(plan.deletes[..i]), map[], plan.deletes[i]);
      after := after - {plan.deletes[i]};
    }
    assert plan.deletes[..|plan.deletes|] == plan.deletes;
    return true, after;
  }

  method ArchiveFiles(files: Files, deleted: Files, plan: ResetPlan, budget: nat)
    returns (ok: bool, after: Files, ghost homes: map<string, string>)
    requires IsPlanFor(files, plan) && budget >= |plan.deletes|
    requires IsTidied(files, deleted, Names(plan.deletes), {}, map[])
    ensures ok == (budget >= |plan.deletes| + |plan.archives|)
    ensures ok ==> IsTidied(files, after, Names(plan.deletes), Names(plan.archives), homes)
    ensures !ok ==> IsTidiedSoFar(files, after, plan, budget, homes)
  {
    after, homes := deleted, map[];
    for i := 0 to |plan.archives|
      invariant |plan.deletes| + i <= budget
      invariant IsTidied(files, after, Names(plan.deletes), Names(plan.archives[..i]), homes)
    {
      if |plan.deletes| + i == budget {
        assert First(plan.archives, budget - |plan.deletes|) == plan.archives[..i];
        return false, after, homes;
      }
      var name := plan.archives[i];
      var target := ArchivePath(after, name);
      NamesMore(plan.archives, i);
      HomeIsNotRemaining(name, target);
      ArchiveOne(files, after, Names(plan.deletes), Names(plan.archives[..i]), homes, name, target);
      after := (after - {name})[target := after[name]];
      homes := homes[name := target];
    }
    assert plan.archives[..|plan.archives|] == plan.archives;
    return true, after, homes;
  }

  lemma HomeIsNotRemaining(name: string, target: string)
    requires EpisodeNumber(name).Some? && |target| > |name| + 1
    ensures target != REMAINING
  {
    assert |REMAINING| == 14;
  }

  lemma NamesMore(s: seq<string>, i: nat)
    requires i < |s| && NoDuplicates(s)
    ensures Names(s[..i + 1]) == Names(s[..i]) + {s[i]} && s[i] !in Names(s[..i])
  {
    assert s[..i + 1] == s[..i] + [s[i]];
  }

  lemma DeleteOne(before: Files, after: Files, deletes: set<string>, homes: map<string, string>, name: string)
    requires IsTidied(before, after, deletes, {}, homes) && name in before
    ensures IsTidied(before, after - {name}, deletes + {name}, {}, homes)
  {
  }

  lemma ArchiveOne(
    before: Files, after: Files, deletes: set<string>, archives: set<string>, homes: map<string, string>, name: string,
    target: string)
    requires IsTidied(before, after, deletes, archives, homes)
    requires forall n | n in deletes || n in archives :: EpisodeNumber(n).Some?
    requires name in before && name !in deletes && name !in archives && EpisodeNumber(name).Some?
    requires target !in after && EpisodeNumber(target).None? && target != REMAINING
    ensures name in after && after[name] == before[name]
    ensures IsTidied(before, (after - {name})[target := after[name]], deletes, archives + {name}, homes[name := target])
  {
    NamesAreNew(before, after, deletes, archives, homes, name, target);
    HousedMore(before, after, homes, name, target);
    UntouchedMore(before, after, deletes + archives, homes, name, target);
    assert deletes + archives + {name} == deletes + (archives + {name});
  }

  /** Neither the file nor its new name is the home of another. */
  lemma NamesAreNew(
    before: Files, after: Files, deletes: set<string>, archives: set<string>, homes: map<string, string>, name: string,
    target: string)
    requires IsTidied(before, after, deletes, archives, homes)
    requires forall n | n in deletes || n in archives :: EpisodeNumber(n).Some?
    requires name in before && name !in deletes && name !in archives && EpisodeNumber(name).Some?
    requires target !in after && EpisodeNumber(target).None?
    ensures name in after && after[name] == before[name] && name !in homes && name !in homes.Values
    ensures target !in before && target !in homes.Values
  {
    forall n | n in homes ensures homes[n] in after && homes[n] != name {
      assert IsHome(before, after, n, homes[n]);
    }
  }

  lemma HousedMore(before: Files, after: Files, homes: map<string, string>, name: string, target: string)
    requires IsHoused(before, after, homes) && name !in homes && name !in homes.Values && target !in homes.Values
    requires name in before && name in after && after[name] == before[name]
    requires target !in before && EpisodeNumber(target).None? && target != REMAINING
    ensures IsHoused(before, (after - {name})[target := after[name]], homes[name := target])
  {
    var moved, more := (after - {name})[target := after[name]], homes[name := target];
    forall n | n in more ensures IsHome(before, moved, n, more[n]) {
      assert n in homes ==> homes[n] in homes.Values && IsHome(before, after, n, homes[n]);
    }
  }

  lemma UntouchedMore(
    before: Files, after: Files, gone: set<string>, homes: map<string, string>, name: string, target: string)
    requires IsUntouched(before, after, gone, homes) && name !in homes && name in after && target !in before
    ensures IsUntouched(before, (after - {name})[target := after[name]], gone + {name}, homes[name := target])
  {
    var more := homes[name := target];
    assert more[name] == target;
    forall n | n in homes.Values ensures n in more.Values {
      var k :| k in homes && homes[k] == n;
      assert more[k] == n;
    }
  }

  lemma RemainingStays(files: Files, after: Files, plan: ResetPlan, homes: map<string, string>)
    requires IsPlanFor(files, plan)
    requires IsTidied(files, after, Names(plan.deletes), Names(plan.archives), homes)
    ensures REMAINING in after <==> REMAINING in files
  {
    RemainingIsNoEpisode();
  }

  // ----- the call

  lemma ScanIsPlan(p: Project, disk: Disk, from: int, plan: ResetPlan)
    requires IsScan(p, disk, from, plan)
    ensures IsPlanFor(disk.files, plan)
  {
  }

  method CheckPartialReset(p: Project, sources: seq<SourceDoc>, from: int) returns (r: Result<Place, ResetError>)
    requires DistinctRels(sources)
    ensures r.Ok? <==> MayReset(p, sources, from)
    ensures r.Ok? ==> IsResetCursor(p, sources, from, r.value)
    ensures r.Err? ==> IsTrueReason(p, sources, from, r.error)
  {
    if from < 1 {
      return Err(NotPositiveFrom);
    }
    if from == 1 {
      return Ok(Place("", 0));
    }
    r := ResolvePartialResetCursor(p, sources, from);
  }

  /**
   Outside the lock: refuses, asks for confirmation, or lets the reset go on with the consumed episodes it has seen.
   */
  method PrepareReset(store: ProjectStore, from: int, confirmed: bool) returns (r: Result<ResetCheck, ResetError>)
    requires DistinctRels(store.disk.sources)
    ensures r.Ok? <==> MayReset(store.project, store.disk.sources, from)
    ensures r.Err? ==> IsTrueReason(store.project, store.disk.sources, from, r.error)
    ensures r.Ok? ==> IsConsumedSet(store.project, store.disk, from, r.value.consumed)
    ensures r.Ok? ==> (r.value.NeedsConfirmation? <==> r.value.consumed != {} && !confirmed)
    ensures r.Ok? && r.value.NeedsConfirmation? ==>
              exists plan :: IsScan(store.project, store.disk, from, plan) && r.value.archives == plan.archives
  {
    var checked := CheckPartialReset(store.project, store.disk.sources, from);
    if checked.Err? {
      return Err(checked.error);
    }
    var plan := Scan(store.project, store.disk, from);
    if plan.consumed != {} && !confirmed {
      return Ok(NeedsConfirmation(plan.consumed, plan.archives));
    }
    return Ok(Cleared(plan.consumed));
  }

  /**
   Inside the lock: everything is checked and scanned again; the ledger changes only when all file operations and the
   saving of the ledger itself went through. `budget` is how many of these succeed before one fails.
   */
  method CommitReset(store: ProjectStore, from: int, allowed: set<int>, budget: nat)
    returns (r: Result<ResetPlan, ResetFailure>)
    requires DistinctRels(store.disk.sources)
    modifies store
    ensures r.Ok? ==> IsReset(old(store.project), old(store.disk), from, allowed, store.project, store.disk)
    ensures r.Ok? ==> IsScan(old(store.project), old(store.disk), from, r.value)
    ensures r.Err? && r.error.Refused? ==>
              IsTrueReason(old(store.project), old(store.disk.sources), from, r.error.reason)
    ensures r.Ok? || r.error.Interrupted? <==>
            && MayReset(old(store.project), old(store.disk.sources), from)
            && IsCleared(old(store.project), old(store.disk), from, allowed)
    ensures r == Err(Interrupted) ==>
              IsInterrupted(old(store.project), old(store.disk), from, budget, store.project, store.disk)
    ensures r.Err? && r.error != Interrupted ==> store.project == old(store.project) && store.disk == old(store.disk)
    ensures r.Ok? ==> budget > Operations(r.value, old(store.disk.files))
    ensures r == Err(Interrupted) ==>
              exists plan :: IsScan(store.project, old(store.disk), from, plan)
                             && budget <= Operations(plan, old(store.disk.files))
  {
    var p, disk := store.project, store.disk;
    var cursor := CheckPartialReset(p, disk.sources, from);
    if cursor.Err? {
      return Err(Refused(cursor.error));
    }
    var plan := Scan(p, disk, from);
    if exists num | num in plan.consumed :: num !in allowed {
      return Err(NewlyConsumed);
    }
    var left := ResetLedger(p, from, cursor.value);
    ScanIsPlan(p, disk, from, plan);
    var ok, files, homes := ApplyFiles(disk.files, plan, budget);
    store.disk := disk.(files := files);
    if !ok || budget == Operations(plan, disk.files) {
      assert IsStoppedAfter(disk.files, files, plan, budget, homes);
      return Err(Interrupted);
    }
    store.project := left;
    ghost var tidy :| IsTidied(disk.files, tidy, Names(plan.deletes), Names(plan.archives), homes)
        && files == tidy - {REMAINING};
    assert IsResetFiles(p, disk, from, plan, homes, tidy, files);
    return Ok(plan);
  }

  method ResetLedger(p: Project, from: int, cursor: Place) returns (left: Project)
    ensures left == ResetProject(p, from, cursor)
  {
    if from == 1 {
      return Project(Listed([]), NoCursor, NoFingerprints);
    }
    var entries := Rows(p);
    var retained: seq<Entry> := [];
    for i := 0 to |entries|
      invariant retained == Retained(entries[..i], from)
    {
      assert entries[..i + 1][..i] == entries[..i];
      if IsBelow(entries[i], from) {
        retained := retained + [entries[i]];
      }
    }
    assert entries[..|entries|] == entries;
    return p.(episodes := Listed(SortByNum(retained)), cursor := CursorAt(Path(cursor.rel), Int(cursor.offset)));
  }
}
