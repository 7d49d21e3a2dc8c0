/** What a reset guarantees: the way out of any ledger, the way back to any episode, and what happens to the files. */
module ResetLaws {
  import opened Wrappers
  import opened SourceText
  import opened EpisodeFiles
  import opened Ledger
  import opened Tiling
  import opened PlanSpec
  import opened LedgerInvariant
  import opened PlanLaws
  import opened ResetSpec

  // ----- which files are left

  /** After a reset no numbered file inside its scope is left, and no leftover text. */
  lemma NoFilesInScope(p: Project, disk: Disk, from: int, allowed: set<int>, p': Project, disk': Disk)
    requires IsReset(p, disk, from, allowed, p', disk')
    ensures forall num | HasEpisodeFile(disk'.files, num) :: !InScope(from, num) && HasEpisodeFile(disk.files, num)
    ensures REMAINING !in disk'.files
  {
    var plan, homes, tidy :| IsResetFiles(p, disk, from, plan, homes, tidy, disk'.files);
    forall name | name in disk'.files && EpisodeNumber(name).Some?
      ensures !IsAffected(disk.files, from, name) && name in disk.files
    {
      NotInScope(p, disk, from, plan, homes, tidy, name);
    }
  }

  lemma NotInScope(
    p: Project, disk: Disk, from: int, plan: ResetPlan, homes: map<string, string>, tidy: Files, name: string)
    requires IsScan(p, disk, from, plan)
    requires IsTidied(disk.files, tidy, Names(plan.deletes), Names(plan.archives), homes)
    requires name in tidy && EpisodeNumber(name).Some?
    ensures !IsAffected(disk.files, from, name) && name in disk.files
  {
    AffectedIsPlanned(p, disk, from, plan, name);
    HomesAreNoEpisodes(disk.files, tidy, homes, name);
  }

  lemma AffectedIsPlanned(p: Project, disk: Disk, from: int, plan: ResetPlan, name: string)
    requires IsScan(p, disk, from, plan)
    ensures IsAffected(disk.files, from, name) <==> name in Names(plan.deletes) + Names(plan.archives)
  {
  }

  lemma HomesAreNoEpisodes(before: Files, after: Files, homes: map<string, string>, name: string)
    requires IsHoused(before, after, homes) && EpisodeNumber(name).Some?
    ensures name !in homes.Values
  {
    forall n | n in homes ensures EpisodeNumber(homes[n]).None? {
      assert IsHome(before, after, n, homes[n]);
    }
  }

  /**
   From any ledger whatever, a full reset that goes through leaves an empty ledger and no derived files; registering
   orphans then adds nothing, and the next plan call passes every gate and starts at the top of the first source.
   */
  lemma FullResetClears(
    p: Project, disk: Disk, allowed: set<int>, p': Project, disk': Disk, windowChars: int,
    healed: Project, r: Result<Outlook, PlanError>)
    requires DistinctRels(disk.sources) && windowChars >= 1
    requires IsReset(p, disk, 1, allowed, p', disk')
    requires IsRegistered(p', disk', healed) && IsOutlook(p', disk', windowChars, r)
    ensures p' == Project(Listed([]), NoCursor, NoFingerprints) && IsTiled(p', disk'.sources)
    ensures EpisodeNums(disk'.files) == {} && REMAINING !in disk'.files
    ensures healed == p'
    ensures if disk'.sources == [] then r == Err(NoSources) else r.Ok?
    ensures r.Ok? && r.value.Window? ==>
              r.value.snap.startRef == Place(disk'.sources[0].rel, 0)
              && Opens(disk'.sources, r.value.snap.rel, r.value.snap.start)
  {
    FullResetFiles(p, disk, allowed, p', disk');
    NothingToRegister(disk', healed);
    var seen :| IsRegistered(p', disk', seen) && IsOutlookOfHealed(seen, disk', windowChars, r);
    NothingToRegister(disk', seen);
    EmptyLedgerOutlook(disk', windowChars, r);
  }

  lemma FullResetFiles(p: Project, disk: Disk, allowed: set<int>, p': Project, disk': Disk)
    requires IsReset(p, disk, 1, allowed, p', disk')
    ensures p' == Project(Listed([]), NoCursor, NoFingerprints) && IsTiled(p', disk'.sources)
    ensures disk'.sources == disk.sources && REMAINING !in disk'.files
    ensures forall num :: !HasEpisodeFile(disk'.files, num)
    ensures EpisodeNums(disk'.files) == {}
  {
    NoFilesInScope(p, disk, 1, allowed, p', disk');
    assert forall num :: num !in EpisodeNums(disk'.files);
  }

  lemma NothingToRegister(disk: Disk, healed: Project)
    requires forall num :: !HasEpisodeFile(disk.files, num)
    requires IsRegistered(Project(Listed([]), NoCursor, NoFingerprints), disk, healed)
    ensures healed == Project(Listed([]), NoCursor, NoFingerprints)
  {
    RegistrationIsIdle(Project(Listed([]), NoCursor, NoFingerprints), disk, healed);
  }

  lemma EmptyLedgerOutlook(disk: Disk, windowChars: int, r: Result<Outlook, PlanError>)
    requires DistinctRels(disk.sources) && windowChars >= 1
    requires IsOutlookOfHealed(Project(Listed([]), NoCursor, NoFingerprints), disk, windowChars, r)
    ensures if disk.sources == [] then r == Err(NoSources) else r.Ok?
    ensures r.Ok? && r.value.Window? ==>
              r.value.snap.startRef == Place(disk.sources[0].rel, 0)
              && Opens(disk.sources, r.value.snap.rel, r.value.snap.start)
  {
    if disk.sources != [] {
      FirstOutlook(disk, windowChars);
    }
  }

  /** Planning from the top of the first source never fails. */
  lemma FirstOutlook(disk: Disk, windowChars: int)
    requires DistinctRels(disk.sources) && windowChars >= 1 && disk.sources != []
    ensures var r := OutlookFrom(disk, Place(disk.sources[0].rel, 0), windowChars);
            r.Ok? && (r.value.Window? ==>
                        r.value.snap.startRef == Place(disk.sources[0].rel, 0)
                        && Opens(disk.sources, r.value.snap.rel, r.value.snap.start))
  {
    var sources := disk.sources;
    IndexOfAt(sources, 0);
    SkipReaches(sources, 0, 0);
    SkipStops(sources, 0, 0);
    assert sources[0].text[0..] == sources[0].text;
    var at := SkipBlank(sources, 0, 0);
    if at.Some? {
      IndexOfAt(sources, at.value.0);
    }
  }

  // ----- what asks for confirmation

  /** Something has been made from the episode: a script in the canonical place or a first draft of it. */
  ghost predicate HasScriptOrDraft(disk: Disk, num: int)
  {
    ScriptRel(num) in disk.paths || num in disk.drafts
  }

  /** A row of the episode marks it consumed or names a script that is there. */
  ghost predicate RowSaysBuiltOn(disk: Disk, e: Entry, num: int)
  {
    NumOf(e) == Some(num) && (e.status == Consumed || (e.script.Path? && e.script.rel in disk.paths))
  }

  /** The episode counts as consumed: media, a row that says so, or a script or draft of a number in use. */
  ghost predicate IsBuiltOn(p: Project, disk: Disk, num: int)
  {
    || num in disk.products
    || (exists e :: e in Rows(p) && RowSaysBuiltOn(disk, e, num))
    || ((num in KnownNums(Rows(p)) || HasEpisodeFile(disk.files, num)) && HasScriptOrDraft(disk, num))
  }

  lemma ConsumedIffBuiltOn(p: Project, disk: Disk, num: int)
    ensures IsConsumed(Rows(p), disk, num) <==> IsBuiltOn(p, disk, num)
  {
    var entries := Rows(p);
    RowsWithNum(entries, num);
    if exists i :: 0 <= i < |entries| && RowIsConsumed(disk, num, entries[i]) {
      var i :| 0 <= i < |entries| && RowIsConsumed(disk, num, entries[i]);
      assert entries[i] in entries;
      assert RowSaysBuiltOn(disk, entries[i], num) || HasScriptOrDraft(disk, num);
    }
    if exists e :: e in entries && RowSaysBuiltOn(disk, e, num) {
      var e :| e in entries && RowSaysBuiltOn(disk, e, num);
      var i :| 0 <= i < |entries| && entries[i] == e;
      assert RowIsConsumed(disk, num, entries[i]);
    }
    if num in KnownNums(entries) && HasScriptOrDraft(disk, num) {
      var i :| 0 <= i < |entries| && NumOf(entries[i]) == Some(num);
      assert RowIsConsumed(disk, num, entries[i]);
    }
  }

  /**
   No reset goes through that touches an episode something has been built on, unless the caller was told about it; with
   all of them known to the caller, only the validator can refuse.
   */
  lemma BuiltOnAsksFirst(p: Project, disk: Disk, from: int, allowed: set<int>)
    ensures IsCleared(p, disk, from, allowed) <==>
            forall num | InScope(from, num) && IsBuiltOn(p, disk, num) :: num in allowed
    ensures (exists num :: InScope(from, num) && IsBuiltOn(p, disk, num) && num !in allowed) ==>
              forall p', disk' :: !IsReset(p, disk, from, allowed, p', disk')
  {
    forall num ensures IsConsumed(Rows(p), disk, num) <==> IsBuiltOn(p, disk, num) {
      ConsumedIffBuiltOn(p, disk, num);
    }
  }

  // ----- the directory afterwards

  /** The episode has a row, and every row of it gives coordinates. */
  ghost predicate HasItsRanges(entries: seq<Entry>, num: int)
  {
    && (exists e :: e in entries && NumOf(e) == Some(num))
    && forall e | e in entries && NumOf(e) == Some(num) :: Coords(e).Some?
  }

  /** A numbered file in scope that nobody could make again from the ledger. */
  ghost predicate IsSetAside(p: Project, files: Files, from: int, name: string)
  {
    IsAffected(files, from, name) && !HasItsRanges(Rows(p), EpisodeNumber(name).value)
  }

  /**
   The directory after a reset that went through, file by file: files out of scope are as they were, the leftover text
   is gone, and of the numbered files in scope exactly those without ranges are still there, each under a new name of
   its own that nothing takes for an episode.
   */
  ghost predicate IsDirectory(p: Project, from: int, before: Files, after: Files, homes: map<string, string>)
  {
    && IsInjective(homes)
    && (forall name :: name in homes <==> IsSetAside(p, before, from, name))
    && (forall name | name in homes :: IsHome(before, after, name, homes[name]))
    && (forall name | name in before && !IsAffected(before, from, name) && name != REMAINING ::
          name in after && after[name] == before[name])
    && forall name | name in after ::
         name in homes.Values || (name in before && !IsAffected(before, from, name) && name != REMAINING)
  }

  lemma ResetDirectory(p: Project, disk: Disk, from: int, allowed: set<int>, p': Project, disk': Disk)
    requires IsReset(p, disk, from, allowed, p', disk')
    ensures exists homes :: IsDirectory(p, from, disk.files, disk'.files, homes)
  {
    var plan, homes, tidy :| IsResetFiles(p, disk, from, plan, homes, tidy, disk'.files);
    SetAsideIffArchived(p, disk, from, plan);
    TidiedDirectory(p, disk, from, plan, homes, tidy);
  }

  lemma SetAsideIffArchived(p: Project, disk: Disk, from: int, plan: ResetPlan)
    requires IsScan(p, disk, from, plan)
    ensures forall name :: name in Names(plan.archives) <==> IsSetAside(p, disk.files, from, name)
    ensures forall name :: name in Names(plan.deletes) + Names(plan.archives) <==> IsAffected(disk.files, from, name)
  {
    forall num ensures HasItsRanges(Rows(p), num) <==> Recreatable(Rows(p), num) {
      RangesRecreate(Rows(p), num);
    }
  }

  lemma TidiedDirectory(
    p: Project, disk: Disk, from: int, plan: ResetPlan, homes: map<string, string>, tidy: Files)
    requires IsTidied(disk.files, tidy, Names(plan.deletes), Names(plan.archives), homes)
    requires forall name :: name in Names(plan.archives) <==> IsSetAside(p, disk.files, from, name)
    requires forall name :: name in Names(plan.deletes) + Names(plan.archives) <==> IsAffected(disk.files, from, name)
    ensures IsDirectory(p, from, disk.files, tidy - {REMAINING}, homes)
  {
    forall name | name in homes ensures IsHome(disk.files, tidy - {REMAINING}, name, homes[name]) {
      assert IsHome(disk.files, tidy, name, homes[name]);
    }
  }

  lemma RangesRecreate(entries: seq<Entry>, num: int)
    ensures HasItsRanges(entries, num) <==> Recreatable(entries, num)
  {
    if HasItsRanges(entries, num) {
      var e :| e in entries && NumOf(e) == Some(num);
      var i :| 0 <= i < |entries| && entries[i] == e;
    }
    forall e | e in entries && NumOf(e) == Some(num) && Recreatable(entries, num) ensures Coords(e).Some? {
      var i :| 0 <= i < |entries| && entries[i] == e;
    }
  }

  // ----- contents are never lost

  /** A file the reset may delete outright: the leftover text, or one the ledger can make again. */
  ghost predicate IsExpendable(p: Project, from: int, name: string)
  {
    name == REMAINING
    || (EpisodeNumber(name).Some? && InScope(from, EpisodeNumber(name).value)
        && Recreatable(Rows(p), EpisodeNumber(name).value))
  }

  /** Every file that is not expendable still has its content: in place, or set aside under a name of its own. */
  ghost predicate KeepsContents(p: Project, from: int, before: Files, after: Files)
  {
    exists places :: AreKept(p, from, before, after, places)
  }

  ghost predicate AreKept(p: Project, from: int, before: Files, after: Files, places: map<string, string>)
  {
    && IsInjective(places)
    && (forall name | name in before && !IsExpendable(p, from, name) :: name in places)
    && forall name | name in places :: IsKept(p, from, before, after, name, places[name])
  }

  /** Only a numbered file in the scope of the reset is ever moved. */
  ghost predicate IsKept(p: Project, from: int, before: Files, after: Files, name: string, place: string)
  {
    && name in before && place in after && after[place] == before[name]
    && !IsExpendable(p, from, name)
    && (place == name || (EpisodeNumber(place).None? && place != REMAINING && IsAffected(before, from, name)))
  }

  /** At every moment of a reset the contents that must not be lost are there. */
  lemma TidiedKeepsContents(
    p: Project, disk: Disk, from: int, plan: ResetPlan, deletes: set<string>, archives: set<string>,
    after: Files, homes: map<string, string>)
    requires IsScan(p, disk, from, plan) && deletes <= Names(plan.deletes) && archives <= Names(plan.archives)
    requires IsTidied(disk.files, after, deletes, archives, homes)
    ensures KeepsContents(p, from, disk.files, after)
    ensures KeepsContents(p, from, disk.files, after - {REMAINING})
  {
    var before := disk.files;
    var places := map name | name in before && !IsExpendable(p, from, name) ::
        if name in homes then homes[name] else name;
    forall name | name in places
      ensures IsKept(p, from, before, after, name, places[name])
      ensures IsKept(p, from, before, after - {REMAINING}, name, places[name])
    {
      if name in homes {
        assert IsHome(before, after, name, homes[name]);
      } else {
        assert name !in deletes;
      }
    }
    forall a, b | a in places && b in places && places[a] == places[b] ensures a == b {
      assert a in homes ==> IsHome(before, after, a, homes[a]);
      assert b in homes ==> IsHome(before, after, b, homes[b]);
    }
    assert AreKept(p, from, before, after, places);
    assert AreKept(p, from, before, after - {REMAINING}, places);
  }

  lemma KeptTwice(p: Project, from: int, a: Files, b: Files, c: Files)
    requires KeepsContents(p, from, a, b) && KeepsContents(p, from, b, c)
    ensures KeepsContents(p, from, a, c)
  {
    var first :| AreKept(p, from, a, b, first);
    var second :| AreKept(p, from, b, c, second);
    forall name | name in first ensures first[name] in second && !IsExpendable(p, from, first[name]) {
      assert IsKept(p, from, a, b, name, first[name]);
    }
    var both := map name | name in first :: second[first[name]];
    forall name | name in both ensures IsKept(p, from, a, c, name, both[name]) {
      assert IsKept(p, from, a, b, name, first[name]);
      assert IsKept(p, from, b, c, first[name], second[first[name]]);
    }
    assert AreKept(p, from, a, c, both);
  }

  lemma FirstIsSubset(s: seq<string>, count: int)
    ensures Names(First(s, count)) <= Names(s)
  {
  }

  lemma InterruptionKeepsContents(p: Project, disk: Disk, from: int, budget: nat, disk': Disk)
    requires IsInterrupted(p, disk, from, budget, p, disk')
    ensures KeepsContents(p, from, disk.files, disk'.files)
  {
    var plan, homes :| IsScan(p, disk, from, plan) && IsStoppedAfter(disk.files, disk'.files, plan, budget, homes);
    if budget < Operations(plan, disk.files) {
      TidiedSoFarKeepsContents(p, disk, from, plan, budget, disk'.files, homes);
    } else {
      AllDoneKeepsContents(p, disk, from, plan, disk'.files, homes);
    }
  }

  lemma AllDoneKeepsContents(
    p: Project, disk: Disk, from: int, plan: ResetPlan, after: Files, homes: map<string, string>)
    requires IsScan(p, disk, from, plan) && IsAllDone(disk.files, after, plan, homes)
    ensures KeepsContents(p, from, disk.files, after)
  {
    var tidy :| IsTidied(disk.files, tidy, Names(plan.deletes), Names(plan.archives), homes)
        && after == tidy - {REMAINING};
    TidiedKeepsContents(p, disk, from, plan, Names(plan.deletes), Names(plan.archives), tidy, homes);
  }

  lemma TidiedSoFarKeepsContents(
    p: Project, disk: Disk, from: int, plan: ResetPlan, budget: nat, after: Files, homes: map<string, string>)
    requires IsScan(p, disk, from, plan) && IsTidiedSoFar(disk.files, after, plan, budget, homes)
    ensures KeepsContents(p, from, disk.files, after)
  {
    var deletes, archives := First(plan.deletes, budget), First(plan.archives, budget - |plan.deletes|);
    FirstIsSubset(plan.deletes, budget);
    FirstIsSubset(plan.archives, budget - |plan.deletes|);
    TidiedKeepsContents(p, disk, from, plan, Names(deletes), Names(archives), after, homes);
  }

  lemma ResetKeepsContents(p: Project, disk: Disk, from: int, allowed: set<int>, p': Project, disk': Disk)
    requires IsReset(p, disk, from, allowed, p', disk')
    ensures KeepsContents(p, from, disk.files, disk'.files)
  {
    var plan, homes, tidy :| IsResetFiles(p, disk, from, plan, homes, tidy, disk'.files);
    TidiedKeepsContents(p, disk, from, plan, Names(plan.deletes), Names(plan.archives), tidy, homes);
  }

  /** The directories seen by a reset that is started again and again, each time failing at some file operation. */
  ghost predicate IsStruggle(p: Project, from: int, disks: seq<Disk>)
  {
    && disks != []
    && forall i | 0 <= i < |disks| - 1 :: FailsOnce(p, from, disks[i], disks[i + 1])
  }

  ghost predicate FailsOnce(p: Project, from: int, disk: Disk, disk': Disk)
  {
    exists budget: nat :: IsInterrupted(p, disk, from, budget, p, disk')
  }

  lemma {:induction false} StruggleKeepsContents(p: Project, from: int, disks: seq<Disk>)
    requires IsStruggle(p, from, disks)
    ensures KeepsContents(p, from, disks[0].files, disks[|disks| - 1].files)
    ensures disks[|disks| - 1].sources == disks[0].sources
  {
    var n := |disks| - 1;
    if n == 0 {
      NothingMoved(p, from, disks[0].files);
    } else {
      var init := disks[..n];
      forall i | 0 <= i < |init| - 1 ensures FailsOnce(p, from, init[i], init[i + 1]) {
        assert FailsOnce(p, from, disks[i], disks[i + 1]);
      }
      StruggleKeepsContents(p, from, init);
      assert FailsOnce(p, from, disks[n - 1], disks[n - 1 + 1]);
      var budget: nat :| IsInterrupted(p, disks[n - 1], from, budget, p, disks[n]);
      InterruptionKeepsContents(p, disks[n - 1], from, budget, disks[n]);
      KeptTwice(p, from, disks[0].files, disks[n - 1].files, disks[n].files);
    }
  }

  lemma NothingMoved(p: Project, from: int, files: Files)
    ensures KeepsContents(p, from, files, files)
  {
    var places := map name | name in files && !IsExpendable(p, from, name) :: name;
    forall name | name in places ensures IsKept(p, from, files, files, name, places[name]) {
    }
    assert AreKept(p, from, files, files, places);
  }

  /**
   However often a full reset is cut short before it goes through, it ends with an empty ledger and no derived files,
   and every content that was there at the start and that the ledger cannot make again is still there.
   */
  lemma RerunCompletes(p: Project, disks: seq<Disk>, allowed: set<int>, p': Project, disk': Disk)
    requires IsStruggle(p, 1, disks)
    requires IsReset(p, disks[|disks| - 1], 1, allowed, p', disk')
    ensures p' == Project(Listed([]), NoCursor, NoFingerprints)
    ensures EpisodeNums(disk'.files) == {} && REMAINING !in disk'.files
    ensures KeepsContents(p, 1, disks[0].files, disk'.files)
    ensures disk'.sources == disks[0].sources
  {
    var last := disks[|disks| - 1];
    StruggleKeepsContents(p, 1, disks);
    ResetKeepsContents(p, last, 1, allowed, p', disk');
    KeptTwice(p, 1, disks[0].files, last.files, disk'.files);
    NoFilesInScope(p, last, 1, allowed, p', disk');
  }

  // ----- going back to an episode

  lemma {:induction false} AllRetained(entries: seq<Entry>, from: int)
    requires forall e | e in entries :: IsBelow(e, from)
    ensures Retained(entries, from) == entries
  {
    if entries != [] {
      var init, e := entries[..|entries| - 1], entries[|entries| - 1];
      assert init + [e] == entries;
      assert IsBelow(e, from);
      AllRetained(init, from);
    }
  }

  lemma {:induction false} RetainedRows(entries: seq<Entry>, from: int)
    requires IsNumbered(entries) && 1 <= from <= |entries| + 1
    ensures Retained(entries, from) == entries[..from - 1]
    decreases |entries|
  {
    if from == |entries| + 1 {
      forall i | 0 <= i < |entries| ensures IsBelow(entries[i], from) {
        assert IsRow(entries[i], i + 1);
      }
      AllRetained(entries, from);
      assert entries[..from - 1] == entries;
    } else {
      var n := |entries| - 1;
      assert IsRow(entries[n], n + 1);
      RetainedRows(entries[..n], from);
      assert entries[..n][..from - 1] == entries[..from - 1];
    }
  }

  /** A planner-made ledger is one the validator accepts, for every episode after the first. */
  lemma TiledCanBeKept(p: Project, sources: seq<SourceDoc>, from: int)
    requires DistinctRels(sources) && IsTiled(p, sources) && 2 <= from <= |p.episodes.entries|
    ensures CanKeep(p, sources, from, RangesOf(p.episodes.entries)[..from - 1])
  {
    var entries := p.episodes.entries;
    NumberedOrder(entries);
    NumberedIsClean(entries);
    NumberedHasRanges(entries, from - 1);
    TilingPrefix(sources, RangesOf(entries), from - 1);
    CurrentNeverMismatches(sources);
  }

  lemma NumberedIsClean(entries: seq<Entry>)
    requires IsNumbered(entries)
    ensures IsCleanLedger(entries)
  {
    forall i | 0 <= i < |entries| ensures NumOf(entries[i]) == Some(i + 1) {
      assert IsRow(entries[i], i + 1);
    }
  }

  lemma NumberedHasRanges(entries: seq<Entry>, n: nat)
    requires IsNumbered(entries) && n <= |entries|
    ensures HasRanges(entries, RangesOf(entries)[..n])
  {
    var ranges := RangesOf(entries)[..n];
    forall k | 0 <= k < n ensures HasRange(entries, k + 1, ranges[k]) {
      assert IsRow(entries[k], k + 1);
      assert NumOf(entries[k]) == Some(k + 1) && Coords(entries[k]) == Some(ranges[k]);
    }
  }

  lemma CurrentNeverMismatches(sources: seq<SourceDoc>)
    ensures Mismatched(Recorded(CurrentFingerprints(sources)), sources) == {}
  {
    var m := Mismatched(Recorded(CurrentFingerprints(sources)), sources);
    forall rel ensures rel !in m {
    }
  }

  /** A reset of a planner-made ledger leaves exactly the episodes before `from`, still tiled. */
  lemma ResetKeepsTiling(p: Project, disk: Disk, from: int, allowed: set<int>, p': Project, disk': Disk)
    requires DistinctRels(disk.sources) && IsTiled(p, disk.sources)
    requires IsReset(p, disk, from, allowed, p', disk')
    ensures from == 1 || 2 <= from <= |p.episodes.entries|
    ensures IsTiled(p', disk'.sources)
    ensures from > 1 ==> p' == KeptBefore(p, from)
    ensures from > 1 ==> EffectiveStart(p', disk'.sources) == Some(EndBefore(p, from))
  {
    if from > 1 {
      var cursor :| IsResetCursor(p, disk.sources, from, cursor) && p' == ResetProject(p, from, cursor);
      KeptRange(p, disk.sources, from, cursor);
      CutBack(p, disk.sources, from, cursor);
      TiledStart(p', disk.sources);
    }
  }

  /** The ledger with only the episodes before `from`. */
  ghost function KeptBefore(p: Project, from: int): Project
    requires p.episodes.Listed? && IsNumbered(p.episodes.entries) && 2 <= from <= |p.episodes.entries|
  {
    var kept := p.episodes.entries[..from - 1];
    assert IsRow(kept[from - 2], from - 2 + 1);
    p.(episodes := Listed(kept), cursor := CursorAfter(kept))
  }

  /** The end of episode from-1. */
  ghost function EndBefore(p: Project, from: int): Place
    requires p.episodes.Listed? && IsNumbered(p.episodes.entries) && 2 <= from <= |p.episodes.entries|
  {
    var kept := p.episodes.entries[..from - 1];
    assert IsRow(kept[from - 2], from - 2 + 1);
    Place(LastRange(kept).rel, LastRange(kept).end)
  }

  lemma KeptRange(p: Project, sources: seq<SourceDoc>, from: int, cursor: Place)
    requires DistinctRels(sources) && IsTiled(p, sources) && from > 1 && IsResetCursor(p, sources, from, cursor)
    ensures from <= |p.episodes.entries| && cursor == LastPlace(RangesOf(p.episodes.entries)[..from - 1])
  {
    var ranges :| CanKeep(p, sources, from, ranges) && cursor == LastPlace(ranges);
    NumberedOrder(p.episodes.entries);
    TiledCanBeKept(p, sources, from);
    RangesAreUnique(p.episodes.entries, ranges, RangesOf(p.episodes.entries)[..from - 1]);
  }

  lemma CutBack(p: Project, sources: seq<SourceDoc>, from: int, cursor: Place)
    requires IsTiled(p, sources) && 2 <= from <= |p.episodes.entries|
    requires cursor == LastPlace(RangesOf(p.episodes.entries)[..from - 1])
    ensures ResetProject(p, from, cursor) == KeptBefore(p, from)
    ensures IsTiled(ResetProject(p, from, cursor), sources)
  {
    var entries := p.episodes.entries;
    RetainedRows(entries, from);
    KeptIsSorted(entries, from);
    KeptIsTiled(p, sources, from);
    assert LastPlace(RangesOf(entries)[..from - 1]) == EndBefore(p, from);
  }

  lemma KeptIsSorted(entries: seq<Entry>, from: int)
    requires IsNumbered(entries) && 2 <= from <= |entries|
    ensures SortByNum(entries[..from - 1]) == entries[..from - 1]
  {
    NumberedOrder(entries[..from - 1]);
    SortingInOrder(entries[..from - 1]);
  }

  lemma KeptIsTiled(p: Project, sources: seq<SourceDoc>, from: int)
    requires IsTiled(p, sources) && 2 <= from <= |p.episodes.entries|
    ensures IsTiled(KeptBefore(p, from), sources)
  {
    var entries := p.episodes.entries;
    TilingPrefix(sources, RangesOf(entries), from - 1);
    assert RangesOf(entries[..from - 1]) == RangesOf(entries)[..from - 1];
  }

  /**
   Plan and reset undo each other: going back to the first number of a batch restores the ledger it was committed
   onto.
   */
  lemma ResetUndoesCommit(
    p: Project, disk: Disk, pending: Pending, normalize: string -> string, r: Result<Committed, PlanError>,
    later: Disk, allowed: set<int>, p': Project, disk': Disk)
    requires DistinctRels(disk.sources) && IsTiled(p, disk.sources) && p.episodes.entries != []
    requires IsPending(pending, disk.sources, normalize)
    requires IsCommit(p, disk, pending.snap, pending.drafts, pending.ends, r) && r.Ok?
    requires later.sources == disk.sources
    requires IsReset(r.value.project, later, |p.episodes.entries| + 1, allowed, p', disk')
    ensures p' == p
  {
    CommitKeepsTiling(p, disk, pending, normalize, r);
    ResetKeepsTiling(r.value.project, later, |p.episodes.entries| + 1, allowed, p', disk');
    assert CommittedEntries(p, disk, pending)[..|p.episodes.entries|] == p.episodes.entries;
    assert r.value.project.fingerprints == p.fingerprints;
  }

  /** The derived files of the kept episodes are not touched, and no others are left. */
  lemma ResetStaysInSync(p: Project, disk: Disk, from: int, allowed: set<int>, p': Project, disk': Disk)
    requires DistinctRels(disk.sources) && IsTiled(p, disk.sources)
    requires InSync(disk.files, p.episodes.entries, disk.sources) && NoOrphans(p.episodes.entries, disk.files)
    requires IsReset(p, disk, from, allowed, p', disk')
    ensures IsTiled(p', disk'.sources)
    ensures InSync(disk'.files, p'.episodes.entries, disk'.sources) && NoOrphans(p'.episodes.entries, disk'.files)
  {
    ResetKeepsTiling(p, disk, from, allowed, p', disk');
    if from > 1 {
      ResetSpares(p, disk, from, allowed, p', disk');
      KeptStaysFiled(disk.files, disk'.files, p.episodes.entries, from, disk.sources);
    }
    NothingElseIsLeft(p, disk, from, allowed, p', disk');
  }

  lemma NothingElseIsLeft(p: Project, disk: Disk, from: int, allowed: set<int>, p': Project, disk': Disk)
    requires IsReset(p, disk, from, allowed, p', disk') && IsTiled(p, disk.sources) && IsTiled(p', disk'.sources)
    requires |p'.episodes.entries| == from - 1 && NoOrphans(p.episodes.entries, disk.files)
    ensures NoOrphans(p'.episodes.entries, disk'.files)
  {
    NoFilesInScope(p, disk, from, allowed, p', disk');
    NumberedOrder(p.episodes.entries);
    NumberedOrder(p'.episodes.entries);
  }

  /** The canonical files of episodes before `from` are as they were. */
  ghost predicate AreSpared(before: Files, after: Files, from: int)
  {
    forall num: nat | num < from && CanonicalName(num) in before :: IsSpared(before, after, num)
  }

  ghost predicate IsSpared(before: Files, after: Files, num: nat)
  {
    CanonicalName(num) in before && CanonicalName(num) in after
        && after[CanonicalName(num)] == before[CanonicalName(num)]
  }

  lemma ResetSpares(p: Project, disk: Disk, from: int, allowed: set<int>, p': Project, disk': Disk)
    requires IsReset(p, disk, from, allowed, p', disk') && from > 1
    ensures AreSpared(disk.files, disk'.files, from)
  {
    forall num: nat | num < from && CanonicalName(num) in disk.files ensures IsSpared(disk.files, disk'.files, num) {
      OutOfScopeStays(p, disk, from, allowed, p', disk', num);
    }
  }

  lemma KeptStaysFiled(before: Files, after: Files, entries: seq<Entry>, from: int, sources: seq<SourceDoc>)
    requires InSync(before, entries, sources) && 1 <= from <= |entries| + 1 && AreSpared(before, after, from)
    ensures InSync(after, entries[..from - 1], sources)
  {
    var kept := entries[..from - 1];
    forall i | 0 <= i < |kept| ensures IsFiled(after, sources, kept[i], i + 1) {
      assert IsFiled(before, sources, entries[i], i + 1);
      assert IsSpared(before, after, i + 1);
    }
  }

  lemma OutOfScopeStays(p: Project, disk: Disk, from: int, allowed: set<int>, p': Project, disk': Disk, num: nat)
    requires IsReset(p, disk, from, allowed, p', disk') && !InScope(from, num) && CanonicalName(num) in disk.files
    ensures CanonicalName(num) in disk'.files && disk'.files[CanonicalName(num)] == disk.files[CanonicalName(num)]
  {
    var name := CanonicalName(num);
    var plan, homes, tidy :| IsResetFiles(p, disk, from, plan, homes, tidy, disk'.files);
    AffectedIsPlanned(p, disk, from, plan, name);
    UnplannedStays(disk.files, tidy, Names(plan.deletes), Names(plan.archives), homes, name);
    RemainingIsNoEpisode();
  }

  lemma UnplannedStays(
    before: Files, tidy: Files, deletes: set<string>, archives: set<string>, homes: map<string, string>, name: string)
    requires IsTidied(before, tidy, deletes, archives, homes) && name in before && name !in deletes + archives
    ensures name in tidy && tidy[name] == before[name]
  {
  }
}
