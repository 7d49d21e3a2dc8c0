/** The planner as code: it reads a project, and commits a batch in place or leaves everything as it was. */
module Planner {
  import opened Wrappers
  import opened SourceText
  import opened EpisodeFiles
  import opened Ledger
  import opened Tiling
  import opened PlanSpec
  import opened Sequences

  /** A project directory with its ledger. Inside a method the project lock is held. */
  class ProjectStore {
    var project: Project
    var disk: Disk

    constructor (project: Project, disk: Disk)
      ensures this.project == project && this.disk == disk
    {
      this.project := project;
      this.disk := disk;
    }

    /** plan() up to the model call. */
    method Snapshot(windowChars: int) returns (r: Result<Outlook, PlanError>)
      requires windowChars >= 1 && DistinctRels(disk.sources)
      ensures IsOutlook(project, disk, windowChars, r)
    {
      var healed := RegisterOrphanEpisodeEntries(disk, project);
      var missing := EpisodesWithoutSourceRange(healed);
      if missing != {} {
        return Err(MissingRange);
      }
      if Mismatched(healed.fingerprints, disk.sources) != {} {
        return Err(SourceChanged);
      }
      if healed.episodes.Malformed? {
        return Err(MalformedLedger);
      }
      var startRef := FindEffectiveStart(healed, disk.sources);
      if startRef.None? {
        return Err(NoSources);
      }
      r := LookAhead(disk, startRef.value, windowChars);
    }

    /**
     The commit of a batch: the whole of it, ledger and files, or nothing when it is refused. Only when the system stops
     it while it writes are some files left behind, with the ledger as it was.
     */
    method Commit(snap: Snap, drafts: seq<Draft>, ends: seq<int>, trouble: Trouble)
      returns (r: Result<Committed, PlanError>)
      requires |drafts| == |ends| > 0 && DistinctRels(disk.sources)
      modifies this
      ensures r != Err(NotWritten) ==> IsCommit(old(project), old(disk), snap, drafts, ends, r)
      ensures r.Ok? ==> project == r.value.project && disk == old(disk).(files := r.value.files)
      ensures r.Ok? ==> PassesWrites(old(disk), snap, r.value.project, trouble)
      ensures r.Err? ==> project == old(project) && disk == old(disk).(files := disk.files)
      ensures r.Err? && r.error != NotWritten ==> disk == old(disk)
      ensures r == Err(NotWritten) ==>
                IsFailedCommit(old(project), old(disk), snap, drafts, ends, trouble, disk.files)
    {
      var healed := RegisterOrphanEpisodeEntries(disk, project);
      var missing := EpisodesWithoutSourceRange(healed);
      if missing != {} {
        return Err(MissingRange);
      }
      if healed.episodes.Malformed? {
        return Err(MalformedLedger);
      }
      var startRef := FindEffectiveStart(healed, disk.sources);
      if startRef.None? {
        return Err(NoSources);
      }
      if startRef != Some(snap.startRef) {
        return Err(Conflict);
      }
      if Mismatched(healed.fingerprints, disk.sources) != {} {
        return Err(SourceChanged);
      }
      if ChangedSince(snap.used, disk.sources) {
        return Err(SourceChanged);
      }
      var entries, stale := AppendBatch(healed, disk, snap, drafts, ends);
      var ok, reconciled := Reconcile(disk, map[snap.rel := snap.text], entries, trouble);
      if reconciled.None? {
        return Err(BadRange);
      }
      if !ok || trouble.AtSweep? || trouble.AtSave? {
        assert IsFailedCommitOfHealed(healed, disk, snap, drafts, ends, trouble, reconciled.value);
        disk := disk.(files := reconciled.value);
        return Err(NotWritten);
      }
      var exhausted := IsLastBatch(disk.sources, snap, ends);
      project := CommittedProject(entries, disk, snap, ends);
      disk := disk.(files := reconciled.value);
      return Ok(Committed(project, disk.files, exhausted, stale));
    }

    /**
     Records fingerprints for a project whose snapshot `seen` had none, unless a recorded text or one that was read has
     changed since.
     */
    method BackfillFingerprints(seen: Fingerprints, used: map<string, string>) returns (r: Result<(), PlanError>)
      modifies this`project
      ensures project == if seen.NoFingerprints? then BackfilledProject(old(project), disk, used) else old(project)
      ensures r.Err? <==>
                && seen.NoFingerprints?
                && (Mismatched(old(project).fingerprints, disk.sources) != {} || ChangedSince(used, disk.sources))
      ensures r.Err? ==> r.error == SourceChanged && project == old(project)
      ensures r.Ok? && seen.NoFingerprints? ==>
                project == old(project).(fingerprints := Recorded(CurrentFingerprints(disk.sources)))
    {
      if !seen.NoFingerprints? {
        return Ok(());
      }
      if Mismatched(project.fingerprints, disk.sources) != {} {
        return Err(SourceChanged);
      }
      if ChangedSince(used, disk.sources) {
        return Err(SourceChanged);
      }
      project := project.(fingerprints := Recorded(CurrentFingerprints(disk.sources)));
      return Ok(());
    }
  }

  /** The system got in the way of none of the writes of this ledger. */
  predicate PassesWrites(disk: Disk, snap: Snap, p: Project, trouble: Trouble)
  {
    match WritesOf(disk, map[snap.rel := snap.text], Rows(p))
    case None => false
    case Some(writes) => trouble == NoTrouble || (trouble.AtWrite? && |writes| <= trouble.done)
  }

  predicate MayBackfill(p: Project, disk: Disk, used: map<string, string>)
  {
    Mismatched(p.fingerprints, disk.sources) == {} && !ChangedSince(used, disk.sources)
  }

  function BackfilledProject(p: Project, disk: Disk, used: map<string, string>): Project
  {
    if MayBackfill(p, disk, used) then p.(fingerprints := Recorded(CurrentFingerprints(disk.sources))) else p
  }

  method FindEffectiveStart(p: Project, sources: seq<SourceDoc>) returns (r: Option<Place>)
    ensures r == EffectiveStart(p, sources)
  {
    var entries := Rows(p);
    var last: Option<Place> := None;
    var bestNum: Option<int> := None;
    for i := 0 to |entries|
      invariant LastAnchored(entries[..i]) ==
                if bestNum.None? then None else Some((bestNum.value, if last.Some? then last.value else Place("", 0)))
      invariant last.Some? == bestNum.Some?
    {
      assert entries[..i + 1][..i] == entries[..i];
      var anchor := Anchor(entries[i]);
      if anchor.None? {
        continue;
      }
      if bestNum.None? || anchor.value.0 > bestNum.value {
        bestNum := Some(anchor.value.0);
        last := Some(anchor.value.1);
      }
    }
    assert entries[..|entries|] == entries;
    var cur := CursorPlace(p.cursor);
    if last.Some? && cur.Some? {
      return Some(Further(sources, last.value, cur.value));
    }
    if last.Some? {
      return last;
    }
    if cur.Some? {
      return cur;
    }
    return if sources == [] then None else Some(Place(sources[0].rel, 0));
  }

  /** Skips what is left blank, file by file, and cuts the window. */
  method LookAhead(disk: Disk, startRef: Place, windowChars: int) returns (r: Result<Outlook, PlanError>)
    requires windowChars >= 1 && DistinctRels(disk.sources)
    ensures r == OutlookFrom(disk, startRef, windowChars)
  {
    var loaded := LoadText(disk, startRef.rel);
    if loaded.None? {
      return Err(Unreadable);
    }
    var text := loaded.value;
    if startRef.offset > |text| {
      return Err(StartOutOfBounds);
    }
    var used := Digests(disk.sources)[startRef.rel := text];
    if IndexOf(disk.sources, startRef.rel).None? {
      if IsBlank(text[Clip(text, startRef.offset)..]) {
        return Ok(Exhausted(used));
      }
      BlankEnd(text, startRef.offset);
      return Ok(Window(MakeSnap(startRef, startRef.rel, startRef.offset, text, windowChars, used)));
    }
    var found, at, start := FirstUnplanned(disk.sources, startRef.rel, startRef.offset);
    if !found {
      return Ok(Exhausted(used));
    }
    SkipStops(disk.sources, IndexOf(disk.sources, startRef.rel).value, Clip(text, startRef.offset));
    BlankEnd(disk.sources[at].text, start);
    return Ok(Window(MakeSnap(startRef, disk.sources[at].rel, start, disk.sources[at].text, windowChars, used)));
  }

  method FirstUnplanned(sources: seq<SourceDoc>, startRel: string, startOffset: int)
    returns (found: bool, at: nat, start: int)
    requires DistinctRels(sources) && IndexOf(sources, startRel).Some?
    requires startOffset <= |sources[IndexOf(sources, startRel).value].text|
    ensures found ==> at < |sources|
    ensures var first := IndexOf(sources, startRel).value;
            && SkipBlank(sources, first, Clip(sources[first].text, startOffset)) ==
               (if found then Some((at, Clip(sources[at].text, start))) else None)
            && (found ==> start == if at == first then startOffset else 0)
  {
    var rel := startRel;
    at, start := IndexOf(sources, rel).value, startOffset;
    ghost var first, wanted := at, SkipBlank(sources, at, Clip(sources[at].text, start));
    while IsBlank(sources[at].text[Clip(sources[at].text, start)..])
      invariant first <= at < |sources| && start <= |sources[at].text|
      invariant start == if at == first then startOffset else 0
      invariant IndexOf(sources, rel) == Some(at)
      invariant wanted == SkipBlank(sources, at, Clip(sources[at].text, start))
      decreases |sources| - at
    {
      var next := NextSource(sources, rel);
      if next.None? {
        return false, at, start;
      }
      IndexOfAt(sources, at + 1);
      rel, at, start := next.value, at + 1, 0;
    }
    return true, at, start;
  }

  /** The ledger rows with one new row per draft, numbered on from the highest positive number. */
  method AppendBatch(healed: Project, disk: Disk, snap: Snap, drafts: seq<Draft>, ends: seq<int>)
    returns (entries: seq<Entry>, stale: set<int>)
    requires |drafts| == |ends|
    ensures entries == CommittedRows(healed, disk, snap, drafts, ends)
    ensures stale == StaleNums(healed, disk, |drafts|)
  {
    var kept, maxNum := KeptRows(WalkedRows(healed));
    var added;
    added, stale := DraftRows(disk, maxNum + 1, snap, drafts, ends);
    entries := SortIfPossible(kept + added);
  }

  method KeptRows(rows: seq<Entry>) returns (entries: seq<Entry>, maxNum: nat)
    ensures entries == NonNull(rows) && maxNum == MaxNum(entries)
  {
    entries := [];
    maxNum := 0;
    for i := 0 to |rows|
      invariant entries == NonNull(rows[..i]) && maxNum == MaxNum(entries)
    {
      assert rows[..i + 1][..i] == rows[..i];
      if !rows[i].Null? {
        assert (entries + [rows[i]])[..|entries|] == entries;
        entries := entries + [rows[i]];
        var num := NumOf(rows[i]);
        if num.Some? && num.value > maxNum {
          maxNum := num.value;
        }
      }
    }
    assert rows[..|rows|] == rows;
  }

  method DraftRows(disk: Disk, nextNum: int, snap: Snap, drafts: seq<Draft>, ends: seq<int>)
    returns (entries: seq<Entry>, stale: set<int>)
    requires |drafts| == |ends|
    ensures entries == NewEntries(disk, nextNum, drafts, BatchRanges(snap.rel, snap.start, ends))
    ensures stale == ProducedFrom(disk, nextNum, |drafts|)
  {
    entries, stale := [], {};
    ghost var ranges := BatchRanges(snap.rel, snap.start, ends);
    var prev := snap.start;
    for i := 0 to |drafts|
      invariant entries == NewEntries(disk, nextNum, drafts[..i], ranges[..i])
      invariant prev == if i == 0 then snap.start else snap.start + ends[i - 1]
      invariant stale == ProducedFrom(disk, nextNum, i)
    {
      var num := nextNum + i;
      var absEnd := snap.start + ends[i];
      var r := Range(snap.rel, prev, absEnd);
      var entry, isStale := DraftRow(disk, num, drafts[i], r);
      OneMoreEntry(disk, nextNum, drafts, ranges, i);
      OneMoreProduced(disk, nextNum, i);
      assert r == ranges[i];
      stale := if isStale then stale + {num} else stale;
      entries := entries + [entry];
      prev := absEnd;
    }
    TakeAll(drafts);
    TakeAll(ranges);
  }

  method DraftRow(disk: Disk, num: int, draft: Draft, r: Range) returns (entry: Entry, isStale: bool)
    ensures entry == NewEntry(disk, num, draft, r) && isStale == AlreadyProduced(disk, num)
  {
    entry, isStale := PlannedEntry(num, draft, r), AlreadyProduced(disk, num);
    if isStale {
      entry := entry.(status := Stale);
    }
  }

  lemma OneMoreProduced(disk: Disk, first: int, count: nat)
    ensures ProducedFrom(disk, first, count + 1) ==
            ProducedFrom(disk, first, count) + (if AlreadyProduced(disk, first + count) then {first + count} else {})
  {
  }

  /**
   Rewrites every derived file from the ledger and removes what the ledger does not know; None touches nothing. When a
   write fails, what has been written so far stays.
   */
  method Reconcile(disk: Disk, textCache: map<string, string>, entries: seq<Entry>, trouble: Trouble)
    returns (ok: bool, r: Option<Files>)
    ensures r.None? || (ok && !trouble.AtSweep?) ==> IsReconciled(disk, textCache, entries, r)
    ensures r.Some? && (!ok || trouble.AtSweep?) ==> IsStopped(disk, textCache, entries, trouble, r.value)
    ensures ok ==> && WritesOf(disk, textCache, entries).Some?
                   && (trouble.AtWrite? ==> |WritesOf(disk, textCache, entries).value| <= trouble.done)
  {
    var keep, writes := PlanWrites(disk, textCache, entries);
    if writes.None? {
      return false, None;
    }
    var files;
    ok, files := WriteOut(disk.files, writes.value, trouble);
    if !ok {
      return false, Some(files);
    }
    var swept := Sweep(files, keep, Staying(disk.stuck, trouble));
    r := Some(swept);
  }

  method WriteOut(before: Files, writes: seq<(int, string)>, trouble: Trouble) returns (ok: bool, files: Files)
    ensures ok <==> !(trouble.AtWrite? && trouble.done < |writes|)
    ensures files == if ok then Applied(before, writes) else TornFiles(before, writes, trouble.done, trouble.begun)
  {
    files := before;
    for i := 0 to |writes|
      invariant files == Applied(before, writes[..i])
      invariant trouble.AtWrite? ==> i <= trouble.done
    {
      var name, text := CanonicalName(writes[i].0), writes[i].1;
      if trouble.AtWrite? && trouble.done == i {
        if trouble.begun.Some? {
          files := files[name := Beginning(text, trouble.begun.value)];
        }
        return false, files;
      }
      AppliedStep(before, writes, i);
      files := files[name := text];
    }
    assert writes[..|writes|] == writes;
    ok := true;
  }

  /** The first phase of reconciliation: every row is checked before any file is written. */
  method PlanWrites(disk: Disk, textCache: map<string, string>, entries: seq<Entry>)
    returns (keep: set<int>, r: Option<seq<(int, string)>>)
    ensures r == WritesOf(disk, textCache, entries)
    ensures r.Some? ==> keep == KnownNums(entries)
  {
    keep := {};
    var writes := [];
    for i := 0 to |entries|
      invariant keep == KnownNums(entries[..i])
      invariant WritesOf(disk, textCache, entries[..i]) == Some(writes)
    {
      OneMoreWrite(disk, textCache, entries, i);
      var num := NumOf(entries[i]);
      if num.None? {
        continue;
      }
      keep := keep + {num.value};
      var piece := PieceOf(disk, textCache, entries[i]);
      if piece.None? {
        WritesFail(disk, textCache, entries, i + 1);
        return keep, None;
      }
      writes := writes + [(num.value, piece.value)];
    }
    assert entries[..|entries|] == entries;
    r := Some(writes);
  }

  lemma OneMoreWrite(disk: Disk, cache: map<string, string>, entries: seq<Entry>, i: nat)
    requires i < |entries| && WritesOf(disk, cache, entries[..i]).Some?
    ensures WritesOf(disk, cache, entries[..i + 1]) ==
            if NumOf(entries[i]).None? then WritesOf(disk, cache, entries[..i])
            else if PieceOf(disk, cache, entries[i]).None? then None
            else Some(WritesOf(disk, cache, entries[..i]).value +
                      [(NumOf(entries[i]).value, PieceOf(disk, cache, entries[i]).value)])
    ensures KnownNums(entries[..i + 1]) ==
            KnownNums(entries[..i]) + (if NumOf(entries[i]).Some? then {NumOf(entries[i]).value} else {})
  {
    assert entries[..i + 1][..i] == entries[..i];
    assert entries[..i] + [entries[i]] == entries[..i + 1];
    KnownNumsAppend(entries[..i], entries[i]);
  }

  lemma {:induction false} WritesFail(disk: Disk, cache: map<string, string>, entries: seq<Entry>, k: nat)
    requires k <= |entries| && WritesOf(disk, cache, entries[..k]).None?
    ensures WritesOf(disk, cache, entries).None?
  {
    if k < |entries| {
      assert entries[..|entries| - 1][..k] == entries[..k];
      WritesFail(disk, cache, entries[..|entries| - 1], k);
    } else {
      assert entries[..k] == entries;
    }
  }

  /** The residue of the numbers in `nums` is gone. */
  ghost predicate IsSweptOf(files: Files, nums: seq<int>, keep: set<int>, stuck: set<string>, swept: Files)
  {
    && swept.Keys <= files.Keys
    && (forall name | name in swept :: swept[name] == files[name])
    && forall name | name in files :: name in swept <==>
         name in stuck
         || !(IsFirstAlias(files, name) && EpisodeNumber(name).value !in keep && EpisodeNumber(name).value in nums)
  }

  /** Unlinks the file standing for each number the ledger does not know, and the leftover text. */
  method Sweep(files: Files, keep: set<int>, stuck: set<string>) returns (swept: Files)
    ensures IsSwept(files, keep, stuck, swept)
  {
    swept := files;
    var nums := Sorted(EpisodeNums(files));
    for i := 0 to |nums|
      invariant IsSweptOf(files, nums[..i], keep, stuck, swept)
    {
      assert nums[..i + 1] == nums[..i] + [nums[i]];
      if nums[i] !in keep {
        assert nums[i] in nums;
        var name := FirstAlias(files, nums[i]);
        OneMoreSwept(files, nums[..i], keep, stuck, swept, name);
        if name !in stuck {
          swept := swept - {name};
        }
      }
    }
    assert nums[..|nums|] == nums;
    forall name | name in files && EpisodeNumber(name).Some? ensures EpisodeNumber(name).value in nums {
      assert HasEpisodeFile(files, EpisodeNumber(name).value);
    }
    if REMAINING !in stuck {
      swept := swept - {REMAINING};
    }
  }

  lemma OneMoreSwept(files: Files, nums: seq<int>, keep: set<int>, stuck: set<string>, swept: Files, name: string)
    requires IsSweptOf(files, nums, keep, stuck, swept)
    requires IsFirstAlias(files, name) && EpisodeNumber(name).value !in keep
    ensures IsSweptOf(files, nums + [EpisodeNumber(name).value], keep, stuck,
                      if name in stuck then swept else swept - {name})
  {
    forall other | IsFirstAlias(files, other) && EpisodeNumber(other) == EpisodeNumber(name) ensures other == name {
      FirstAliasIsUnique(files, other, name);
    }
  }
}
