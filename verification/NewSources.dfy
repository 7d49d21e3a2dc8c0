/** A source file that appears among those already planned: no gate notices it, and what that means. */
module NewSources {
  import opened Wrappers
  import opened SourceText
  import opened EpisodeFiles
  import opened Ledger
  import opened Tiling
  import opened PlanSpec
  import opened LedgerInvariant
  import opened PlanLaws
  import opened EpisodeSource
  import opened ResetSpec
  import opened ResetLaws
  import opened CommitFailures

  /** The candidate sources with a new one at position `k`. */
  function Inserted(sources: seq<SourceDoc>, k: nat, doc: SourceDoc): seq<SourceDoc>
    requires k <= |sources|
  {
    sources[..k] + [doc] + sources[k..]
  }

  ghost predicate IsNew(sources: seq<SourceDoc>, k: nat, doc: SourceDoc)
  {
    k <= |sources| && DistinctRels(sources) && forall i | 0 <= i < |sources| :: sources[i].rel != doc.rel
  }

  function Shift(i: int, k: nat): int
  {
    if i < k then i else i + 1
  }

  lemma InsertedAt(sources: seq<SourceDoc>, k: nat, doc: SourceDoc, i: nat)
    requires k <= |sources| && i < |sources|
    ensures Inserted(sources, k, doc)[Shift(i, k)] == sources[i]
  {
  }

  lemma InsertedIsDistinct(sources: seq<SourceDoc>, k: nat, doc: SourceDoc)
    requires IsNew(sources, k, doc)
    ensures DistinctRels(Inserted(sources, k, doc)) && Idx(Inserted(sources, k, doc), doc.rel) == k
  {
    var all := Inserted(sources, k, doc);
    forall i, j | 0 <= i < j < |all| ensures all[i].rel != all[j].rel {
      assert i != k ==> all[i] == sources[if i < k then i else i - 1];
      assert j != k ==> all[j] == sources[if j < k then j else j - 1];
    }
    IndexOfAt(all, k);
  }

  /** Every other file keeps its text and its place among the others. */
  lemma IdxShifts(sources: seq<SourceDoc>, k: nat, doc: SourceDoc, rel: string)
    requires IsNew(sources, k, doc) && 0 <= Idx(sources, rel)
    ensures var all := Inserted(sources, k, doc);
            Idx(all, rel) == Shift(Idx(sources, rel), k) && TextAt(all, rel) == TextAt(sources, rel) && rel != doc.rel
  {
    InsertedIsDistinct(sources, k, doc);
    InsertedAt(sources, k, doc, Idx(sources, rel));
    IndexOfAt(Inserted(sources, k, doc), Shift(Idx(sources, rel), k));
  }

  /** A stretch of blank files stays blank exactly when the new file lies outside it or is blank. */
  lemma BlanksShift(sources: seq<SourceDoc>, k: nat, doc: SourceDoc, lo: nat, hi: nat)
    requires k <= |sources| && lo <= hi <= |sources|
    ensures BlankBetween(Inserted(sources, k, doc), if lo <= k then lo else lo + 1, Shift(hi, k)) <==>
            BlankBetween(sources, lo, hi) && (lo <= k <= hi ==> IsBlank(doc.text))
  {
    var all := Inserted(sources, k, doc);
    var from := if lo <= k then lo else lo + 1;
    if BlankBetween(all, from, Shift(hi, k)) {
      forall i | lo <= i < hi ensures IsBlank(sources[i].text) {
        InsertedAt(sources, k, doc, i);
        assert IsBlank(all[Shift(i, k)].text);
      }
      assert all[k] == doc;
    } else {
      var i :| from <= i < Shift(hi, k) && i < |all| && !IsBlank(all[i].text);
      assert i != k ==> all[i] == sources[if i < k then i else i - 1];
    }
  }

  lemma RunsOnShifts(sources: seq<SourceDoc>, k: nat, doc: SourceDoc, a: Range, b: Range)
    requires IsNew(sources, k, doc) && InBounds(sources, a) && InBounds(sources, b) && RunsOn(sources, a, b)
    ensures RunsOn(Inserted(sources, k, doc), a, b) <==>
            (Idx(sources, a.rel) < k <= Idx(sources, b.rel) ==> IsBlank(doc.text))
  {
    IdxShifts(sources, k, doc, a.rel);
    IdxShifts(sources, k, doc, b.rel);
    if a.rel != b.rel {
      BlanksShift(sources, k, doc, Idx(sources, a.rel) + 1, Idx(sources, b.rel));
    }
  }

  lemma OpensShifts(sources: seq<SourceDoc>, k: nat, doc: SourceDoc, a: Range)
    requires IsNew(sources, k, doc) && InBounds(sources, a) && Opens(sources, a.rel, a.start)
    ensures Opens(Inserted(sources, k, doc), a.rel, a.start) <==> (k <= Idx(sources, a.rel) ==> IsBlank(doc.text))
  {
    IdxShifts(sources, k, doc, a.rel);
    BlanksShift(sources, k, doc, 0, Idx(sources, a.rel));
  }

  lemma {:induction false} LaterIsFurther(sources: seq<SourceDoc>, ranges: seq<Range>, m: nat, n: nat)
    requires IsTiling(sources, ranges) && m <= n < |ranges|
    ensures Idx(sources, ranges[m].rel) <= Idx(sources, ranges[n].rel)
  {
    if m < n {
      LaterIsFurther(sources, ranges, m, n - 1);
      assert RunsOn(sources, ranges[n - 1], ranges[n]);
    }
  }

  /** The first range at or after position `k`, one that the new file would come right before. */
  lemma {:induction false} FirstCrossing(sources: seq<SourceDoc>, ranges: seq<Range>, k: nat, m: nat) returns (c: nat)
    requires m < |ranges| && k <= Idx(sources, ranges[m].rel)
    ensures c <= m && k <= Idx(sources, ranges[c].rel)
    ensures c > 0 ==> Idx(sources, ranges[c - 1].rel) < k
  {
    if m == 0 || Idx(sources, ranges[m - 1].rel) < k {
      c := m;
    } else {
      c := FirstCrossing(sources, ranges, k, m - 1);
    }
  }

  /** Some range up to the m-th would have to reach over the new file. */
  lemma CrossedIsBlank(sources: seq<SourceDoc>, ranges: seq<Range>, k: nat, doc: SourceDoc, m: nat)
    requires IsNew(sources, k, doc) && IsTiling(sources, ranges) && m < |ranges|
    requires IsTiling(Inserted(sources, k, doc), ranges) && k <= Idx(sources, ranges[m].rel)
    ensures IsBlank(doc.text)
  {
    var c := FirstCrossing(sources, ranges, k, m);
    if c == 0 {
      OpeningIsBlank(sources, ranges, k, doc);
    } else {
      CrossingIsBlank(sources, ranges, k, doc, c);
    }
  }

  lemma OpeningIsBlank(sources: seq<SourceDoc>, ranges: seq<Range>, k: nat, doc: SourceDoc)
    requires IsNew(sources, k, doc) && IsTiling(sources, ranges) && ranges != []
    requires IsTiling(Inserted(sources, k, doc), ranges) && k <= Idx(sources, ranges[0].rel)
    ensures IsBlank(doc.text)
  {
    OpensShifts(sources, k, doc, ranges[0]);
  }

  lemma CrossingIsBlank(sources: seq<SourceDoc>, ranges: seq<Range>, k: nat, doc: SourceDoc, m: nat)
    requires IsNew(sources, k, doc) && IsTiling(sources, ranges) && 0 < m < |ranges|
    requires IsTiling(Inserted(sources, k, doc), ranges)
    requires Idx(sources, ranges[m - 1].rel) < k <= Idx(sources, ranges[m].rel)
    ensures IsBlank(doc.text)
  {
    TiledAt(sources, ranges, m);
    TiledAt(Inserted(sources, k, doc), ranges, m);
    RunsOnShifts(sources, k, doc, ranges[m - 1], ranges[m]);
  }

  lemma TiledAt(sources: seq<SourceDoc>, ranges: seq<Range>, m: nat)
    requires IsTiling(sources, ranges) && 0 < m < |ranges|
    ensures InBounds(sources, ranges[m - 1]) && InBounds(sources, ranges[m])
    ensures RunsOn(sources, ranges[m - 1], ranges[m])
  {
  }

  /** The episodes still tile the sources exactly when the new file is blank or comes after the last of them. */
  lemma TilingSurvivesIff(sources: seq<SourceDoc>, ranges: seq<Range>, k: nat, doc: SourceDoc)
    requires IsNew(sources, k, doc) && IsTiling(sources, ranges) && ranges != []
    ensures IsTiling(Inserted(sources, k, doc), ranges) <==>
            IsBlank(doc.text) || Idx(sources, ranges[|ranges| - 1].rel) < k
  {
    var last := |ranges| - 1;
    if IsTiling(Inserted(sources, k, doc), ranges) && k <= Idx(sources, ranges[last].rel) {
      CrossedIsBlank(sources, ranges, k, doc, last);
    }
    if IsBlank(doc.text) || Idx(sources, ranges[last].rel) < k {
      StillTiles(sources, ranges, k, doc);
    }
  }

  lemma StillTiles(sources: seq<SourceDoc>, ranges: seq<Range>, k: nat, doc: SourceDoc)
    requires IsNew(sources, k, doc) && IsTiling(sources, ranges) && ranges != []
    requires IsBlank(doc.text) || Idx(sources, ranges[|ranges| - 1].rel) < k
    ensures IsTiling(Inserted(sources, k, doc), ranges)
  {
    var all := Inserted(sources, k, doc);
    forall i | 0 <= i < |ranges|
      ensures InBounds(all, ranges[i]) && (k <= Idx(sources, ranges[i].rel) ==> IsBlank(doc.text))
    {
      IdxShifts(sources, k, doc, ranges[i].rel);
      LaterIsFurther(sources, ranges, i, |ranges| - 1);
    }
    OpensShifts(sources, k, doc, ranges[0]);
    forall i | 0 < i < |ranges| ensures RunsOn(all, ranges[i - 1], ranges[i]) {
      assert RunsOn(sources, ranges[i - 1], ranges[i]);
      RunsOnShifts(sources, k, doc, ranges[i - 1], ranges[i]);
    }
  }

  // ----- what plan calls and resets make of it

  /** The check of the recorded fingerprints does not notice the new file. */
  lemma MatchesAsWell(sources: seq<SourceDoc>, k: nat, doc: SourceDoc, recorded: Fingerprints)
    requires IsNew(sources, k, doc) && Mismatched(recorded, sources) == {}
    ensures Mismatched(recorded, Inserted(sources, k, doc)) == {}
  {
    var m := Mismatched(recorded, Inserted(sources, k, doc));
    forall rel ensures rel !in m {
      assert rel !in Mismatched(recorded, sources);
      if 0 <= Idx(sources, rel) {
        IdxShifts(sources, k, doc, rel);
      }
    }
    assert (forall rel :: rel !in m) ==> m == {};
  }

  lemma NewSourceMatches(sources: seq<SourceDoc>, k: nat, doc: SourceDoc)
    requires IsNew(sources, k, doc)
    ensures Mismatched(Recorded(CurrentFingerprints(sources)), Inserted(sources, k, doc)) == {}
  {
    CurrentNeverMismatches(sources);
    MatchesAsWell(sources, k, doc, Recorded(CurrentFingerprints(sources)));
  }

  lemma CursorAtEnd(p: Project, sources: seq<SourceDoc>)
    requires IsTiled(p, sources) && p.episodes.entries != []
    ensures CursorPlace(p.cursor) == Some(EndOf(p.episodes.entries))
  {
    var entries := p.episodes.entries;
    assert IsRow(entries[|entries| - 1], |entries|);
    assert InBounds(sources, RangesOf(entries)[|entries| - 1]);
  }

  /** Planning goes on at the end of the last episode, whatever sources there are. */
  lemma SameStart(p: Project, sources: seq<SourceDoc>, others: seq<SourceDoc>)
    requires IsTiled(p, sources) && p.episodes.entries != []
    ensures EffectiveStart(p, others) == Some(EndOf(p.episodes.entries))
  {
    CursorAtEnd(p, sources);
    NumberedRows(p.episodes.entries);
  }

  /**
   A plan call passes every gate with the new file there. It never goes back to it: when the file comes before the last
   episode's, the window is cut elsewhere.
   */
  lemma NewSourceIsPassedOver(
    p: Project, disk: Disk, k: nat, doc: SourceDoc, windowChars: int, r: Result<Outlook, PlanError>)
    requires IsNew(disk.sources, k, doc) && IsTiled(p, disk.sources) && p.episodes.entries != []
    requires NoOrphans(p.episodes.entries, disk.files) && windowChars >= 1
    requires IsOutlook(p, disk.(sources := Inserted(disk.sources, k, doc)), windowChars, r)
    ensures r.Ok?
    ensures r.value.Window? && k <= Idx(disk.sources, LastRange(p.episodes.entries).rel) ==> r.value.snap.rel != doc.rel
    ensures r.value.Exhausted? ==>
              NothingLeft(Inserted(disk.sources, k, doc),
                          LastRange(p.episodes.entries).rel, LastRange(p.episodes.entries).end)
  {
    var disk' := disk.(sources := Inserted(disk.sources, k, doc));
    PlansFromTheEnd(p, disk, k, doc, windowChars, r);
    EndIsThere(p, disk.sources, k, doc);
    GoesOnFrom(disk', EndOf(p.episodes.entries), windowChars);
  }

  function EndOf(entries: seq<Entry>): Place
    requires entries != [] && Coords(entries[|entries| - 1]).Some?
  {
    Place(LastRange(entries).rel, LastRange(entries).end)
  }

  lemma PlansFromTheEnd(
    p: Project, disk: Disk, k: nat, doc: SourceDoc, windowChars: int, r: Result<Outlook, PlanError>)
    requires IsNew(disk.sources, k, doc) && IsTiled(p, disk.sources) && p.episodes.entries != []
    requires NoOrphans(p.episodes.entries, disk.files) && windowChars >= 1
    requires IsOutlook(p, disk.(sources := Inserted(disk.sources, k, doc)), windowChars, r)
    ensures r == OutlookFrom(disk.(sources := Inserted(disk.sources, k, doc)), EndOf(p.episodes.entries), windowChars)
  {
    var disk' := disk.(sources := Inserted(disk.sources, k, doc));
    var healed :| IsRegistered(p, disk', healed) && IsOutlookOfHealed(healed, disk', windowChars, r);
    NumberedOrder(p.episodes.entries);
    RegistrationIsIdle(p, disk', healed);
    NewSourceMatches(disk.sources, k, doc);
    SameStart(p, disk.sources, disk'.sources);
  }

  lemma EndIsThere(p: Project, sources: seq<SourceDoc>, k: nat, doc: SourceDoc)
    requires IsNew(sources, k, doc) && IsTiled(p, sources) && p.episodes.entries != []
    ensures var all, end := Inserted(sources, k, doc), EndOf(p.episodes.entries);
            && DistinctRels(all) && Idx(all, doc.rel) == k
            && 0 <= Idx(sources, end.rel) && Idx(all, end.rel) == Shift(Idx(sources, end.rel), k)
            && 0 <= end.offset <= |TextAt(all, end.rel)|
  {
    var last := LastRange(p.episodes.entries);
    assert last == RangesOf(p.episodes.entries)[|p.episodes.entries| - 1];
    assert InBounds(sources, last);
    IdxShifts(sources, k, doc, last.rel);
    InsertedIsDistinct(sources, k, doc);
  }

  lemma GoesOnFrom(disk: Disk, start: Place, windowChars: int)
    requires DistinctRels(disk.sources) && windowChars >= 1
    requires 0 <= Idx(disk.sources, start.rel) && 0 <= start.offset <= |TextAt(disk.sources, start.rel)|
    ensures var r := OutlookFrom(disk, start, windowChars);
            && r.Ok?
            && (r.value.Window? ==> Idx(disk.sources, start.rel) <= Idx(disk.sources, r.value.snap.rel))
            && (r.value.Exhausted? ==> NothingLeft(disk.sources, start.rel, start.offset))
  {
    var i := Idx(disk.sources, start.rel);
    SkipReaches(disk.sources, i, start.offset);
    var at := SkipBlank(disk.sources, i, start.offset);
    if at.Some? {
      IndexOfAt(disk.sources, at.value.0);
    }
  }

  /** When such a plan call reports that everything is planned, that is true exactly if the new file is blank. */
  lemma ExhaustionIsTrueIffBlank(
    p: Project, disk: Disk, k: nat, doc: SourceDoc, windowChars: int, used: map<string, string>)
    requires IsNew(disk.sources, k, doc) && IsTiled(p, disk.sources) && p.episodes.entries != []
    requires NoOrphans(p.episodes.entries, disk.files) && windowChars >= 1
    requires IsOutlook(p, disk.(sources := Inserted(disk.sources, k, doc)), windowChars, Ok(Exhausted(used)))
    ensures IsAllCovered(Inserted(disk.sources, k, doc), RangesOf(p.episodes.entries)) <==> IsBlank(doc.text)
  {
    NothingLeftAfterLast(p, disk, k, doc, windowChars, used);
    CoveredIffBlank(disk.sources, RangesOf(p.episodes.entries), k, doc);
  }

  lemma NothingLeftAfterLast(
    p: Project, disk: Disk, k: nat, doc: SourceDoc, windowChars: int, used: map<string, string>)
    requires IsNew(disk.sources, k, doc) && IsTiled(p, disk.sources) && p.episodes.entries != []
    requires NoOrphans(p.episodes.entries, disk.files) && windowChars >= 1
    requires IsOutlook(p, disk.(sources := Inserted(disk.sources, k, doc)), windowChars, Ok(Exhausted(used)))
    ensures var ranges := RangesOf(p.episodes.entries);
            && ranges != []
            && NothingLeft(Inserted(disk.sources, k, doc), ranges[|ranges| - 1].rel, ranges[|ranges| - 1].end)
  {
    NewSourceIsPassedOver(p, disk, k, doc, windowChars, Ok(Exhausted(used)));
    LastIsLast(p.episodes.entries);
  }

  lemma LastIsLast(entries: seq<Entry>)
    requires entries != [] && IsNumbered(entries)
    ensures RangesOf(entries) != [] && RangesOf(entries)[|RangesOf(entries)| - 1] == LastRange(entries)
  {
  }

  /** With nothing left after the last range, the rest of the sources is covered exactly when the new file is blank. */
  lemma CoveredIffBlank(sources: seq<SourceDoc>, ranges: seq<Range>, k: nat, doc: SourceDoc)
    requires IsNew(sources, k, doc) && IsTiling(sources, ranges) && ranges != []
    requires NothingLeft(Inserted(sources, k, doc), ranges[|ranges| - 1].rel, ranges[|ranges| - 1].end)
    ensures IsAllCovered(Inserted(sources, k, doc), ranges) <==> IsBlank(doc.text)
  {
    var all := Inserted(sources, k, doc);
    InsertedIsDistinct(sources, k, doc);
    if IsBlank(doc.text) {
      TilingSurvivesIff(sources, ranges, k, doc);
      forall i: nat, offset: nat | i < |all| && offset < |all[i].text| && !IsSpace(all[i].text[offset])
        ensures IsInOneRange(all, ranges, i, offset)
      {
        FullyCovered(all, ranges, i, offset);
      }
    } else {
      var offset :| 0 <= offset < |doc.text| && !IsSpace(doc.text[offset]);
      assert all[k] == doc;
      NewSourceIsUncovered(sources, ranges, k, doc, offset);
    }
  }

  /**
   The same for a commit that reports it, with a snapshot from before the file was added: the batch goes through, and
   the report is true exactly if the new file is blank.
   */
  lemma CommitExhaustionIsTrueIffBlank(
    p: Project, disk: Disk, k: nat, doc: SourceDoc, pending: Pending, normalize: string -> string,
    r: Result<Committed, PlanError>)
    requires IsNew(disk.sources, k, doc) && IsTiled(p, disk.sources) && p.episodes.entries != []
    requires IsPending(pending, disk.sources, normalize)
    requires IsCommitWith(p, disk, k, doc, pending, r) && r.Ok? && r.value.exhausted
    ensures r.value.project.episodes.Listed? && IsNumbered(r.value.project.episodes.entries)
    ensures IsTiling(disk.sources, RangesOf(r.value.project.episodes.entries))
    ensures IsAllCovered(Inserted(disk.sources, k, doc), RangesOf(r.value.project.episodes.entries)) <==>
            IsBlank(doc.text)
  {
    PassesWithNewSource(p, disk, k, doc, pending, r);
    LastBatchCoversIff(p, disk, k, doc, pending, normalize, r.value.project.episodes.entries);
  }

  lemma LastBatchCoversIff(
    p: Project, disk: Disk, k: nat, doc: SourceDoc, pending: Pending, normalize: string -> string, all: seq<Entry>)
    requires IsNew(disk.sources, k, doc) && IsTiled(p, disk.sources) && p.episodes.entries != []
    requires IsPending(pending, disk.sources, normalize)
    requires EffectiveStart(p, disk.sources) == Some(pending.snap.startRef)
    requires IsLastBatch(Inserted(disk.sources, k, doc), pending.snap, pending.ends)
    requires all == CommittedEntries(p, disk, pending)
    ensures IsNumbered(all) && IsTiling(disk.sources, RangesOf(all))
    ensures IsAllCovered(Inserted(disk.sources, k, doc), RangesOf(all)) <==> IsBlank(doc.text)
  {
    StillFits(p, disk, k, doc, pending, normalize);
    CoveredIffBlank(disk.sources, RangesOf(all), k, doc);
  }

  /** The commit is made with the new file there. */
  ghost predicate IsCommitWith(
    p: Project, disk: Disk, k: nat, doc: SourceDoc, pending: Pending, r: Result<Committed, PlanError>)
    requires k <= |disk.sources|
  {
    && |pending.drafts| == |pending.ends| > 0
    && IsCommit(p, disk.(sources := Inserted(disk.sources, k, doc)), pending.snap, pending.drafts, pending.ends, r)
  }

  /** The batch tiles the old sources, and nothing is left after it in the new ones. */
  lemma StillFits(p: Project, disk: Disk, k: nat, doc: SourceDoc, pending: Pending, normalize: string -> string)
    requires IsNew(disk.sources, k, doc) && IsTiled(p, disk.sources) && p.episodes.entries != []
    requires IsPending(pending, disk.sources, normalize)
    requires EffectiveStart(p, disk.sources) == Some(pending.snap.startRef)
    requires IsLastBatch(Inserted(disk.sources, k, doc), pending.snap, pending.ends)
    ensures var all := CommittedEntries(p, disk, pending);
            && IsNumbered(all) && all != [] && IsTiling(disk.sources, RangesOf(all))
            && var last := RangesOf(all)[|all| - 1];
               NothingLeft(Inserted(disk.sources, k, doc), last.rel, last.end)
  {
    BatchContinues(p, disk, pending, normalize);
    BatchFits(p, disk, pending);
    LastCommitLeavesNothing(p, disk, k, doc, pending);
  }

  /** What passing the checks on the new list of sources says about the old one. */
  lemma PassesWithNewSource(
    p: Project, disk: Disk, k: nat, doc: SourceDoc, pending: Pending, r: Result<Committed, PlanError>)
    requires IsNew(disk.sources, k, doc) && IsTiled(p, disk.sources) && p.episodes.entries != []
    requires IsCommitWith(p, disk, k, doc, pending, r) && r.Ok? && r.value.exhausted
    ensures EffectiveStart(p, disk.sources) == Some(pending.snap.startRef)
    ensures r.value.project.episodes == Listed(CommittedEntries(p, disk, pending))
    ensures IsLastBatch(Inserted(disk.sources, k, doc), pending.snap, pending.ends)
  {
    var disk' := disk.(sources := Inserted(disk.sources, k, doc));
    var healed :| IsRegistered(p, disk', healed)
                  && IsCommitOfHealed(healed, disk', pending.snap, pending.drafts, pending.ends, r);
    DoneIfOk(healed, disk', pending, r);
    NotLacking(healed, disk', pending.snap);
    RegistersUnlessOrphaned(p, disk', healed);
    SameStart(p, disk.sources, disk.sources);
    SameStart(p, disk.sources, disk'.sources);
    BatchRows(p, disk', pending);
    DoneRows(p, disk', pending, r.value);
    SameNewEntries(p, disk, disk', pending);
  }

  lemma DoneRows(p: Project, disk: Disk, pending: Pending, done: Committed)
    requires |pending.drafts| == |pending.ends| > 0
    requires IsDone(p, disk, pending.snap, pending.drafts, pending.ends, done)
    ensures done.project.episodes == Listed(CommittedRows(p, disk, pending.snap, pending.drafts, pending.ends))
    ensures done.exhausted == IsLastBatch(disk.sources, pending.snap, pending.ends)
  {
  }

  /** New rows depend on the products that are there, not on the sources. */
  lemma SameNewEntries(p: Project, disk: Disk, other: Disk, pending: Pending)
    requires p.episodes.Listed? && |pending.drafts| == |pending.ends| && other == disk.(sources := other.sources)
    ensures CommittedEntries(p, other, pending) == CommittedEntries(p, disk, pending)
  {
  }

  lemma NotLacking(healed: Project, disk: Disk, snap: Snap)
    requires Refusal(healed, disk, snap) == None
    ensures !SomeLackRange(Rows(healed)) && EffectiveStart(healed, disk.sources) == Some(snap.startRef)
  {
  }

  /** Registration that leaves no row without a range has changed nothing. */
  lemma RegistersUnlessOrphaned(p: Project, disk: Disk, healed: Project)
    requires p.episodes.Listed? && IsNumbered(p.episodes.entries) && IsRegistered(p, disk, healed)
    requires !SomeLackRange(Rows(healed))
    ensures healed == p
  {
    var entries := p.episodes.entries;
    NumberedOrder(entries);
    var nums :| IsAscending(nums, EpisodeNums(disk.files))
                && healed == p.(episodes := Listed(SortIfPossible(WithOrphans(entries, nums, disk))));
    OrphanShows(entries, nums, disk);
    WithOrphansNothingToAdd(entries, nums, disk);
    SortingInOrder(entries);
  }

  lemma LastCommitLeavesNothing(p: Project, disk: Disk, k: nat, doc: SourceDoc, pending: Pending)
    requires IsNew(disk.sources, k, doc) && p.episodes.Listed? && IsNumbered(p.episodes.entries)
    requires |pending.drafts| == |pending.ends| > 0
    requires IsLastBatch(Inserted(disk.sources, k, doc), pending.snap, pending.ends)
    requires 0 <= Idx(disk.sources, pending.snap.rel) && pending.snap.text == TextAt(disk.sources, pending.snap.rel)
    requires 0 <= pending.snap.start && IsBatch(pending.ends, pending.snap.start, |pending.snap.text|)
    ensures var all := CommittedEntries(p, disk, pending);
            && IsNumbered(all) && all != []
            && var last := RangesOf(all)[|all| - 1];
               NothingLeft(Inserted(disk.sources, k, doc), last.rel, last.end)
  {
    BatchRows(p, disk, pending);
    LastOfBatch(CommittedEntries(p, disk, pending), pending.snap, RangesOf(p.episodes.entries), pending.ends);
    IdxShifts(disk.sources, k, doc, pending.snap.rel);
    LastBatchLeavesNothing(Inserted(disk.sources, k, doc), pending.snap, pending.ends);
  }

  // ----- an input

  /** One source, and one episode that takes the whole of it. */
  function PlannedDisk(): Disk
  {
    Disk([SourceDoc("b", "xy")], map[], map[], {}, {}, {}, {})
  }

  function PlannedProject(): Project
  {
    Project(Listed([PlannedEntry(1, Draft("", "", "xy"), Range("b", 0, 2))]), CursorAt(Path("b"), Int(2)),
            Recorded(CurrentFingerprints(PlannedDisk().sources)))
  }

  lemma PlannedIsTiled()
    ensures IsTiled(PlannedProject(), PlannedDisk().sources)
    ensures EndOf(PlannedProject().episodes.entries) == Place("b", 2)
    ensures NoOrphans(PlannedProject().episodes.entries, PlannedDisk().files)
    ensures RangesOf(PlannedProject().episodes.entries) == [Range("b", 0, 2)]
  {
    var entries, sources := PlannedProject().episodes.entries, PlannedDisk().sources;
    IndexOfAt(sources, 0);
    assert IsRow(entries[0], 1);
    assert RangesOf(entries) == [Range("b", 0, 2)];
    assert forall num :: !HasEpisodeFile(PlannedDisk().files, num);
  }

  lemma NothingAfterTheEnd(windowChars: int)
    requires windowChars >= 1
    ensures var disk := PlannedDisk();
            var disk' := disk.(sources := Inserted(disk.sources, 0, SourceDoc("a", "zz")));
            var r := OutlookFrom(disk', Place("b", 2), windowChars);
            r.Ok? && r.value.Exhausted?
  {
    var all := [SourceDoc("a", "zz"), SourceDoc("b", "xy")];
    assert Inserted(PlannedDisk().sources, 0, SourceDoc("a", "zz")) == all;
    IndexOfAt(all, 1);
    assert "xy"[2..] == "";
    assert SkipBlank(all, 1, 2) == None;
  }

  /**
   The input that shows it: everything is planned, and a file that sorts first is added. Whatever its window, the next
   plan call reports that everything is planned, there is one, and the new file is in no episode.
   */
  lemma OneAddedSourceIsMissed(windowChars: int) returns (used: map<string, string>)
    requires windowChars >= 1
    ensures var p, disk, doc := PlannedProject(), PlannedDisk(), SourceDoc("a", "zz");
            var disk' := disk.(sources := Inserted(disk.sources, 0, doc));
            && IsNew(disk.sources, 0, doc) && IsTiled(p, disk.sources)
            && (forall r | IsOutlook(p, disk', windowChars, r) :: r.Ok? && r.value.Exhausted?)
            && IsOutlook(p, disk', windowChars, Ok(Exhausted(used)))
            && !IsAllCovered(disk'.sources, RangesOf(p.episodes.entries))
  {
    PlannedIsTiled();
    used := OneReport(windowChars);
    AlwaysReported(windowChars);
    assert !IsSpace("zz"[0]);
    ExhaustionIsTrueIffBlank(PlannedProject(), PlannedDisk(), 0, SourceDoc("a", "zz"), windowChars, used);
  }

  lemma OneReport(windowChars: int) returns (used: map<string, string>)
    requires windowChars >= 1
    ensures var disk' := PlannedDisk().(sources := Inserted(PlannedDisk().sources, 0, SourceDoc("a", "zz")));
            IsOutlook(PlannedProject(), disk', windowChars, Ok(Exhausted(used)))
  {
    var disk' := PlannedDisk().(sources := Inserted(PlannedDisk().sources, 0, SourceDoc("a", "zz")));
    PlannedIsTiled();
    NothingAfterTheEnd(windowChars);
    used := OutlookFrom(disk', Place("b", 2), windowChars).value.used;
    GoesThroughGates(PlannedProject(), PlannedDisk(), 0, SourceDoc("a", "zz"), windowChars);
  }

  lemma AlwaysReported(windowChars: int)
    requires windowChars >= 1
    ensures var disk' := PlannedDisk().(sources := Inserted(PlannedDisk().sources, 0, SourceDoc("a", "zz")));
            forall r | IsOutlook(PlannedProject(), disk', windowChars, r) :: r.Ok? && r.value.Exhausted?
  {
    var disk' := PlannedDisk().(sources := Inserted(PlannedDisk().sources, 0, SourceDoc("a", "zz")));
    PlannedIsTiled();
    NothingAfterTheEnd(windowChars);
    forall r | IsOutlook(PlannedProject(), disk', windowChars, r) ensures r.Ok? && r.value.Exhausted? {
      PlansFromTheEnd(PlannedProject(), PlannedDisk(), 0, SourceDoc("a", "zz"), windowChars, r);
    }
  }

  /** The way through the gates, as it is taken. */
  lemma GoesThroughGates(p: Project, disk: Disk, k: nat, doc: SourceDoc, windowChars: int)
    requires IsNew(disk.sources, k, doc) && IsTiled(p, disk.sources) && p.episodes.entries != []
    requires NoOrphans(p.episodes.entries, disk.files) && windowChars >= 1
    ensures var disk' := disk.(sources := Inserted(disk.sources, k, doc));
            IsOutlook(p, disk', windowChars, OutlookFrom(disk', EndOf(p.episodes.entries), windowChars))
  {
    var disk' := disk.(sources := Inserted(disk.sources, k, doc));
    RegistersAsItIs(p, disk');
    NumberedOrder(p.episodes.entries);
    NewSourceMatches(disk.sources, k, doc);
    SameStart(p, disk.sources, disk'.sources);
    assert IsOutlookOfHealed(p, disk', windowChars, OutlookFrom(disk', EndOf(p.episodes.entries), windowChars));
  }

  lemma NewSourceIsUncovered(sources: seq<SourceDoc>, ranges: seq<Range>, k: nat, doc: SourceDoc, offset: nat)
    requires IsNew(sources, k, doc) && IsTiling(sources, ranges)
    ensures !IsInOneRange(Inserted(sources, k, doc), ranges, k, offset)
  {
    forall i | 0 <= i < |ranges| ensures !Covers(Inserted(sources, k, doc), ranges[i], k, offset) {
      IdxShifts(sources, k, doc, ranges[i].rel);
    }
  }

  /**
   Only a partial reset notices: it is refused exactly when the new file lies before the end of what it would keep and
   is not blank.
   */
  lemma ResetAcceptsIff(p: Project, sources: seq<SourceDoc>, k: nat, doc: SourceDoc, from: int)
    requires IsNew(sources, k, doc) && IsTiled(p, sources)
    ensures MayReset(p, Inserted(sources, k, doc), from) <==>
            || from == 1
            || (2 <= from <= |p.episodes.entries|
                && (IsBlank(doc.text) || Idx(sources, RangesOf(p.episodes.entries)[from - 2].rel) < k))
  {
    var entries, all := p.episodes.entries, Inserted(sources, k, doc);
    NumberedOrder(entries);
    if 2 <= from <= |entries| {
      var kept := RangesOf(entries)[..from - 1];
      TilingPrefix(sources, RangesOf(entries), from - 1);
      TilingSurvivesIff(sources, kept, k, doc);
      NewSourceMatches(sources, k, doc);
      KeepsIff(p, all, from);
    } else if from > 1 {
      assert from !in KnownNums(entries);
    }
  }

  /** On numbered rows with matching fingerprints a partial reset asks only for the tiling. */
  lemma KeepsIff(p: Project, sources: seq<SourceDoc>, from: int)
    requires p.episodes.Listed? && IsNumbered(p.episodes.entries) && 2 <= from <= |p.episodes.entries|
    requires Mismatched(p.fingerprints, sources) == {}
    ensures MayReset(p, sources, from) <==> IsTiling(sources, RangesOf(p.episodes.entries)[..from - 1])
  {
    var entries := p.episodes.entries;
    var kept := RangesOf(entries)[..from - 1];
    NumberedOrder(entries);
    NumberedIsClean(entries);
    NumberedHasRanges(entries, from - 1);
    if IsTiling(sources, kept) {
      assert CanKeep(p, sources, from, kept);
    }
    if MayReset(p, sources, from) {
      var ranges :| CanKeep(p, sources, from, ranges);
      RangesAreUnique(entries, ranges, kept);
    }
  }
}
