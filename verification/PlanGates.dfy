/** What stops a plan call, and what it reports: changed texts, the end of the sources, rows for unowned files. */
module PlanGates {
  import opened Wrappers
  import opened SourceText
  import opened Sequences
  import opened EpisodeFiles
  import opened Ledger
  import opened Tiling
  import opened PlanSpec
  import opened LedgerInvariant
  import opened PlanLaws
  import opened PlanContents
  import opened EpisodeSource
  import opened CommitFailures
  import opened NewSources
  import opened ResetSpec
  import opened ResetLaws

  // ----- texts that change

  /** A snapshot takes the digest of every candidate source, planned or not. */
  lemma SnapReadsAll(disk: Disk, windowChars: int, snap: Snap, i: nat)
    requires DistinctRels(disk.sources) && windowChars >= 1 && IsSnapOf(disk.sources, disk, windowChars, snap)
    requires i < |disk.sources|
    ensures Get(snap.used, disk.sources[i].rel) == Some(disk.sources[i].text)
  {
    IndexOfAt(disk.sources, i);
  }

  function Get(used: map<string, string>, rel: string): Option<string>
  {
    if rel in used then Some(used[rel]) else None
  }

  /**
   While the model was asked, one of the candidate sources was edited or removed: the commit is refused, whatever ledger
   it finds and whether or not anything has been planned from that file.
   */
  lemma EditedSourceIsRefused(
    p: Project, disk: Disk, before: seq<SourceDoc>, pending: Pending, normalize: string -> string,
    r: Result<Committed, PlanError>, i: nat)
    requires DistinctRels(before) && IsPending(pending, before, normalize)
    requires IsCommit(p, disk, pending.snap, pending.drafts, pending.ends, r)
    requires i < |before| && TextOf(disk.sources, before[i].rel) != Some(before[i].text)
    ensures r.Err?
  {
    var seen, windowChars :| windowChars >= 1 && IsSnapOf(before, seen, windowChars, pending.snap);
    SnapReadsAll(seen, windowChars, pending.snap, i);
    assert before[i].rel in pending.snap.used;
    ChangeIsRefused(p, disk, pending.snap, pending.drafts, pending.ends, r);
  }

  lemma ChangeIsRefused(
    p: Project, disk: Disk, snap: Snap, drafts: seq<Draft>, ends: seq<int>, r: Result<Committed, PlanError>)
    requires |drafts| == |ends| > 0 && IsCommit(p, disk, snap, drafts, ends, r)
    requires ChangedSince(snap.used, disk.sources) || Mismatched(p.fingerprints, disk.sources) != {}
    ensures r.Err? && r.error != BadRange
  {
    var healed :| IsRegistered(p, disk, healed) && IsCommitOfHealed(healed, disk, snap, drafts, ends, r);
    RegistrationKeepsKind(p, disk, healed);
    ChangeRefuses(healed, disk, snap);
    RefusedIsErr(healed, disk, snap, drafts, ends, r);
  }

  lemma ChangeRefuses(healed: Project, disk: Disk, snap: Snap)
    requires ChangedSince(snap.used, disk.sources) || Mismatched(healed.fingerprints, disk.sources) != {}
    ensures Refusal(healed, disk, snap).Some?
  {
  }

  lemma RefusedIsErr(
    healed: Project, disk: Disk, snap: Snap, drafts: seq<Draft>, ends: seq<int>, r: Result<Committed, PlanError>)
    requires |drafts| == |ends| > 0 && IsCommitOfHealed(healed, disk, snap, drafts, ends, r)
    requires Refusal(healed, disk, snap).Some?
    ensures r.Err? && r.error != BadRange
  {
  }

  /** The ledger remembers a text of this file that is not the one it has now, if it still is a candidate source. */
  ghost predicate IsOutdated(p: Project, sources: seq<SourceDoc>, rel: string)
  {
    && p.fingerprints.Recorded? && rel in p.fingerprints.of && p.fingerprints.of[rel].Sha256?
    && TextOf(sources, rel) != Some(p.fingerprints.of[rel].text)
  }

  /**
   With a recorded text that is not the present one, no plan call goes ahead, no commit goes through, and nothing may be
   kept by a reset; only a full reset is accepted.
   */
  lemma OutdatedIsRefused(
    p: Project, disk: Disk, rel: string, windowChars: int, outlook: Result<Outlook, PlanError>, snap: Snap,
    drafts: seq<Draft>, ends: seq<int>, r: Result<Committed, PlanError>, from: int)
    requires IsOutdated(p, disk.sources, rel)
    requires windowChars >= 1 && IsOutlook(p, disk, windowChars, outlook)
    requires |drafts| == |ends| > 0 && IsCommit(p, disk, snap, drafts, ends, r)
    ensures outlook.Err? && (outlook.error == SourceChanged || outlook.error == MissingRange)
    ensures r.Err? && r.error != BadRange
    ensures MayReset(p, disk.sources, from) <==> from == 1
  {
    assert rel in Mismatched(p.fingerprints, disk.sources);
    ChangeStopsOutlook(p, disk, windowChars, outlook);
    ChangeIsRefused(p, disk, snap, drafts, ends, r);
  }

  /** Once a commit has gone through, no later edit or removal of any candidate source goes unnoticed. */
  lemma ChangeAfterCommitIsNoticed(
    p: Project, disk: Disk, snap: Snap, drafts: seq<Draft>, ends: seq<int>, r: Result<Committed, PlanError>, i: nat,
    later: Disk, windowChars: int, outlook: Result<Outlook, PlanError>)
    requires DistinctRels(disk.sources) && |drafts| == |ends| > 0 && IsCommit(p, disk, snap, drafts, ends, r) && r.Ok?
    requires i < |disk.sources| && TextOf(later.sources, disk.sources[i].rel) != Some(disk.sources[i].text)
    requires windowChars >= 1 && IsOutlook(r.value.project, later, windowChars, outlook)
    ensures outlook.Err? && (outlook.error == SourceChanged || outlook.error == MissingRange)
  {
    var rel := disk.sources[i].rel;
    IndexOfAt(disk.sources, i);
    assert r.value.project.fingerprints == Recorded(CurrentFingerprints(disk.sources));
    assert rel in Mismatched(r.value.project.fingerprints, later.sources);
    ChangeStopsOutlook(r.value.project, later, windowChars, outlook);
  }

  lemma ChangeStopsOutlook(p: Project, disk: Disk, windowChars: int, outlook: Result<Outlook, PlanError>)
    requires windowChars >= 1 && IsOutlook(p, disk, windowChars, outlook)
    requires Mismatched(p.fingerprints, disk.sources) != {}
    ensures outlook.Err? && (outlook.error == SourceChanged || outlook.error == MissingRange)
  {
    var seen :| IsRegistered(p, disk, seen) && IsOutlookOfHealed(seen, disk, windowChars, outlook);
    RegistrationKeepsKind(p, disk, seen);
  }

  /**
   When a commit onto a planner-made ledger is refused, and why: a file belongs to no episode, planning stands elsewhere
   by now, or a text the call has read is not what it was.
   */
  lemma CommitRefusedIff(
    p: Project, disk: Disk, pending: Pending, normalize: string -> string, r: Result<Committed, PlanError>)
    requires DistinctRels(disk.sources) && IsTiled(p, disk.sources)
    requires IsPending(pending, disk.sources, normalize)
    requires IsCommit(p, disk, pending.snap, pending.drafts, pending.ends, r)
    ensures r == Err(MissingRange) <==> !NoOrphans(p.episodes.entries, disk.files)
    ensures r == Err(NoSources) <==>
            NoOrphans(p.episodes.entries, disk.files) && EffectiveStart(p, disk.sources).None?
    ensures r == Err(Conflict) <==>
            && NoOrphans(p.episodes.entries, disk.files)
            && EffectiveStart(p, disk.sources).Some?
            && EffectiveStart(p, disk.sources).value != pending.snap.startRef
    ensures r == Err(SourceChanged) <==>
            && NoOrphans(p.episodes.entries, disk.files)
            && EffectiveStart(p, disk.sources) == Some(pending.snap.startRef)
            && ChangedSince(pending.snap.used, disk.sources)
    ensures r.Ok? || r.error == MissingRange || r.error == NoSources || r.error == Conflict || r.error == SourceChanged
  {
    var healed :| IsRegistered(p, disk, healed)
                  && IsCommitOfHealed(healed, disk, pending.snap, pending.drafts, pending.ends, r);
    RegistrationKeepsKind(p, disk, healed);
    CurrentNeverMismatches(disk.sources);
    if NoOrphans(p.episodes.entries, disk.files) {
      NumberedOrder(p.episodes.entries);
      RegistrationIsIdle(p, disk, healed);
      RefusalOfTiled(p, disk, pending.snap);
    } else {
      LackingWhenOrphaned(p, disk, healed);
    }
    AnswerOf(healed, disk, pending, r);
    CommitKeepsTiling(p, disk, pending, normalize, r);
  }

  lemma AnswerOf(healed: Project, disk: Disk, pending: Pending, r: Result<Committed, PlanError>)
    requires |pending.drafts| == |pending.ends| > 0
    requires IsCommitOfHealed(healed, disk, pending.snap, pending.drafts, pending.ends, r)
    ensures var refusal := Refusal(healed, disk, pending.snap);
            if refusal.Some? then r == Err(refusal.value) else r.Ok? || r == Err(BadRange)
  {
  }

  lemma LackingWhenOrphaned(p: Project, disk: Disk, healed: Project)
    requires IsTiled(p, disk.sources) && IsRegistered(p, disk, healed) && !NoOrphans(p.episodes.entries, disk.files)
    ensures SomeLackRange(Rows(healed))
  {
    if !SomeLackRange(Rows(healed)) {
      TiledRegistration(p, disk, healed);
    }
  }

  lemma RefusalOfTiled(p: Project, disk: Disk, snap: Snap)
    requires IsTiled(p, disk.sources)
    ensures Refusal(p, disk, snap) ==
            if EffectiveStart(p, disk.sources).None? then Some(NoSources)
            else if EffectiveStart(p, disk.sources).value != snap.startRef then Some(Conflict)
            else if ChangedSince(snap.used, disk.sources) then Some(SourceChanged)
            else None
  {
    NumberedOrder(p.episodes.entries);
    CurrentNeverMismatches(disk.sources);
  }

  // ----- the reports of the end

  /** A plan call on a planner-made ledger finds everything planned exactly when only whitespace is left. */
  lemma OutlookReportsEndIff(p: Project, disk: Disk, windowChars: int, r: Result<Outlook, PlanError>)
    requires DistinctRels(disk.sources) && IsTiled(p, disk.sources) && windowChars >= 1
    requires IsOutlook(p, disk, windowChars, r) && r.Ok?
    ensures EffectiveStart(p, disk.sources).Some?
    ensures var start := EffectiveStart(p, disk.sources).value;
            r.value.Exhausted? <==> NothingLeft(disk.sources, start.rel, start.offset)
  {
    var healed :| IsRegistered(p, disk, healed) && IsOutlookOfHealed(healed, disk, windowChars, r);
    TiledRegistration(p, disk, healed);
    StartIsInSources(p, disk.sources);
    EndIff(disk, EffectiveStart(p, disk.sources).value, windowChars);
  }

  lemma EndIff(disk: Disk, start: Place, windowChars: int)
    requires DistinctRels(disk.sources) && windowChars >= 1
    requires 0 <= Idx(disk.sources, start.rel) && 0 <= start.offset <= |TextAt(disk.sources, start.rel)|
    ensures var r := OutlookFrom(disk, start, windowChars);
            r.Ok? && (r.value.Exhausted? <==> NothingLeft(disk.sources, start.rel, start.offset))
  {
    var i := Idx(disk.sources, start.rel);
    SkipReaches(disk.sources, i, start.offset);
    SkipStops(disk.sources, i, start.offset);
    var at := SkipBlank(disk.sources, i, start.offset);
    if at.Some? && at.value.0 > i {
      assert disk.sources[at.value.0].text[0..] == disk.sources[at.value.0].text;
    }
  }

  /**
   A commit reports the end of the sources exactly when its batch is cut from the last of them, from a window that
   reaches its end, and leaves only whitespace.
   */
  lemma CommitReportsEndIff(
    p: Project, disk: Disk, pending: Pending, normalize: string -> string, r: Result<Committed, PlanError>)
    requires DistinctRels(disk.sources) && IsTiled(p, disk.sources)
    requires IsPending(pending, disk.sources, normalize)
    requires IsCommit(p, disk, pending.snap, pending.drafts, pending.ends, r) && r.Ok?
    ensures var entries := Rows(r.value.project);
            && entries != [] && Coords(entries[|entries| - 1]).Some?
            && (r.value.exhausted <==>
                && NothingLeft(disk.sources, LastRange(entries).rel, LastRange(entries).end)
                && Idx(disk.sources, LastRange(entries).rel) == |disk.sources| - 1
                && pending.snap.start + |pending.snap.window| == |TextAt(disk.sources, pending.snap.rel)|)
  {
    CommittedEnd(p, disk, pending, normalize, r);
    BatchEndInText(p, disk, pending, normalize, r);
    PendingIsFinalIff(disk.sources, pending, normalize);
    LastBatchIff(disk.sources, pending.snap, pending.ends, LastRange(Rows(r.value.project)), r.value.exhausted);
  }

  lemma BatchEndInText(
    p: Project, disk: Disk, pending: Pending, normalize: string -> string, r: Result<Committed, PlanError>)
    requires DistinctRels(disk.sources) && IsTiled(p, disk.sources)
    requires IsPending(pending, disk.sources, normalize)
    requires IsCommit(p, disk, pending.snap, pending.drafts, pending.ends, r) && r.Ok?
    ensures 0 <= pending.snap.start < pending.snap.start + pending.ends[|pending.ends| - 1] <= |pending.snap.text|
    ensures Rows(r.value.project) != [] && Coords(Rows(r.value.project)[|Rows(r.value.project)| - 1]).Some?
  {
    CommittedEnd(p, disk, pending, normalize, r);
    CommittedBatch(p, disk, pending, normalize, r);
    var entries := r.value.project.episodes.entries;
    TiledRowsInBounds(entries, disk.sources);
    assert InBounds(disk.sources, LastRange(entries));
  }

  lemma PendingIsFinalIff(sources: seq<SourceDoc>, pending: Pending, normalize: string -> string)
    requires DistinctRels(sources) && IsPending(pending, sources, normalize) && pending.snap.start >= 0
    ensures pending.snap.final <==> pending.snap.start + |pending.snap.window| == |pending.snap.text|
  {
    var disk, windowChars :| windowChars >= 1 && IsSnapOf(sources, disk, windowChars, pending.snap);
    WindowIsText(disk, windowChars, pending.snap);
  }

  lemma LastBatchIff(sources: seq<SourceDoc>, snap: Snap, ends: seq<int>, last: Range, exhausted: bool)
    requires ends != [] && 0 <= Idx(sources, snap.rel) && snap.text == TextAt(sources, snap.rel)
    requires last.rel == snap.rel && last.end == snap.start + ends[|ends| - 1] && 0 <= last.end <= |snap.text|
    requires exhausted == IsLastBatch(sources, snap, ends)
    requires snap.final <==> snap.start + |snap.window| == |snap.text|
    ensures exhausted <==>
            && NothingLeft(sources, last.rel, last.end) && Idx(sources, last.rel) == |sources| - 1
            && snap.start + |snap.window| == |TextAt(sources, snap.rel)|
  {
  }

  // ----- the stored cursor

  /** A cursor with a negative offset counts for nothing. */
  lemma NegativeCursorIsIgnored(p: Project, sources: seq<SourceDoc>, file: PathValue, offset: int)
    requires p.cursor == CursorAt(file, Int(offset)) && offset < 0
    ensures EffectiveStart(p, sources) == EffectiveStart(p.(cursor := NoCursor), sources)
  {
  }

  // ----- rows for unowned files

  /** What registration writes for a file without a row: no range, and consumed if work has been built on it. */
  ghost predicate IsOrphanRow(disk: Disk, row: Entry, num: int)
  {
    && row.Entry? && row.episode == Whole(num) && row.range == NotMapping && row.script == Path(ScriptRel(num))
    && row.status == (if ScriptRel(num) in disk.paths || num in disk.drafts then Consumed else Planned)
  }

  ghost predicate IsUnowned(entries: seq<Entry>, files: Files, num: int)
  {
    HasEpisodeFile(files, num) && num !in KnownNums(entries)
  }

  /** Registration adds exactly one row for each numbered file without one, and each says so. */
  lemma RegistrationAddsOrphans(p: Project, disk: Disk, healed: Project)
    requires p.episodes.Listed? && IsRegistered(p, disk, healed)
    ensures healed.episodes.Listed?
    ensures forall row | row in Rows(healed) && row !in Rows(p) ::
              exists num :: IsUnowned(Rows(p), disk.files, num) && IsOrphanRow(disk, row, num)
    ensures forall num | IsUnowned(Rows(p), disk.files, num) ::
              exists row :: row in Rows(healed) && IsOrphanRow(disk, row, num)
  {
    var entries := p.episodes.entries;
    var nums :| IsAscending(nums, EpisodeNums(disk.files))
                && healed == p.(episodes := Listed(SortIfPossible(WithOrphans(entries, nums, disk))));
    var all := WithOrphans(entries, nums, disk);
    SortKeepsRows(all);
    forall row | row in all && row !in entries
      ensures exists num :: IsUnowned(entries, disk.files, num) && IsOrphanRow(disk, row, num)
    {
      var num := AddedFor(entries, nums, disk, row);
      assert IsUnowned(entries, disk.files, num) && IsOrphanRow(disk, row, num);
    }
    forall num | IsUnowned(entries, disk.files, num) ensures exists row :: row in all && IsOrphanRow(disk, row, num) {
      assert num in nums;
      IsAdded(entries, nums, disk, num);
      assert IsOrphanRow(disk, OrphanEntry(disk, num), num);
    }
  }

  lemma {:induction false} AddedFor(entries: seq<Entry>, nums: seq<int>, disk: Disk, row: Entry) returns (num: int)
    requires row in WithOrphans(entries, nums, disk) && row !in entries
    ensures num in nums && num !in KnownNums(entries) && row == OrphanEntry(disk, num)
  {
    var n := |nums| - 1;
    if row in WithOrphans(entries, nums[..n], disk) {
      num := AddedFor(entries, nums[..n], disk, row);
    } else {
      num := nums[n];
      WithOrphansCovers(entries, nums[..n], disk);
    }
  }

  lemma {:induction false} IsAdded(entries: seq<Entry>, nums: seq<int>, disk: Disk, num: int)
    requires num in nums && num !in KnownNums(entries)
    ensures OrphanEntry(disk, num) in WithOrphans(entries, nums, disk)
  {
    var n := |nums| - 1;
    OneMoreAdded(entries, nums, disk);
    if num in nums[..n] {
      IsAdded(entries, nums[..n], disk, num);
    } else {
      InitAndLast(nums);
    }
  }

  lemma OneMoreAdded(entries: seq<Entry>, nums: seq<int>, disk: Disk)
    requires nums != []
    ensures var n := |nums| - 1;
            && WithOrphans(entries, nums[..n], disk) <= WithOrphans(entries, nums, disk)
            && (nums[n] !in nums[..n] && nums[n] !in KnownNums(entries) ==>
                  OrphanEntry(disk, nums[n]) in WithOrphans(entries, nums, disk))
  {
    WithOrphansCovers(entries, nums[..|nums| - 1], disk);
  }
}
