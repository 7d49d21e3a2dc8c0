/** What is left when the system stops a commit while it writes, and what the next plan call makes of it. */
module CommitFailures {
  import opened Wrappers
  import opened SourceText
  import opened Boundaries
  import opened EpisodeFiles
  import opened Ledger
  import opened Tiling
  import opened PlanSpec
  import opened LedgerInvariant
  import opened PlanLaws
  import opened ResetSpec
  import opened ResetLaws

  /** The failure came after the file of a new episode had been created; `kept` episodes were there before. */
  predicate CreatedNew(trouble: Trouble, kept: nat)
  {
    match trouble
    case NoTrouble => false
    case AtWrite(done, begun) => done > kept || (done == kept && begun.Some?)
    case AtSweep(left) => true
    case AtSave => true
  }

  // ----- which numbers have files

  lemma OneMoreFile(files: Files, n: nat, content: string)
    ensures forall num :: HasEpisodeFile(files[CanonicalName(n) := content], num) <==>
            HasEpisodeFile(files, num) || num == n
  {
    var after := files[CanonicalName(n) := content];
    forall num ensures HasEpisodeFile(after, num) <==> HasEpisodeFile(files, num) || num == n {
      assert CanonicalName(n) in after && EpisodeNumber(CanonicalName(n)) == Some(n);
      if HasEpisodeFile(files, num) {
        var name :| name in files && EpisodeNumber(name) == Some(num);
        assert name in after;
      }
    }
  }

  ghost predicate InNumberOrder(writes: seq<(int, string)>)
  {
    forall i | 0 <= i < |writes| :: writes[i].0 == i + 1
  }

  lemma {:induction false} NumbersWritten(files: Files, writes: seq<(int, string)>, done: nat)
    requires InNumberOrder(writes) && done <= |writes|
    ensures forall num ::
              HasEpisodeFile(Applied(files, writes[..done]), num) <==> HasEpisodeFile(files, num) || 1 <= num <= done
  {
    if done > 0 {
      NumbersWritten(files, writes, done - 1);
      AppliedStep(files, writes, done - 1);
      OneMoreFile(Applied(files, writes[..done - 1]), writes[done - 1].0, writes[done - 1].1);
    }
  }

  lemma NumbersTorn(files: Files, writes: seq<(int, string)>, done: nat, begun: Option<nat>)
    requires InNumberOrder(writes) && done < |writes|
    ensures forall num :: HasEpisodeFile(TornFiles(files, writes, done, begun), num) <==>
              HasEpisodeFile(files, num) || 1 <= num <= done || (num == done + 1 && begun.Some?)
  {
    NumbersWritten(files, writes, done);
    if begun.Some? {
      OneMoreFile(Applied(files, writes[..done]), writes[done].0, Beginning(writes[done].1, begun.value));
    }
  }

  lemma {:induction false} NumberedWrites(disk: Disk, cache: map<string, string>, entries: seq<Entry>)
    requires IsNumbered(entries) && Writable(disk, cache, entries)
    ensures WritesOf(disk, cache, entries).Some?
    ensures |WritesOf(disk, cache, entries).value| == |entries| && InNumberOrder(WritesOf(disk, cache, entries).value)
  {
    if entries != [] {
      var n := |entries| - 1;
      NumberedPrefix(disk, cache, entries);
      NumberedWrites(disk, cache, entries[..n]);
      PieceIsFiled(disk, cache, entries[n], n + 1, disk.files);
    }
  }

  /** Removing residue from files of kept numbers only takes no number away. */
  lemma SweptNumbers(files: Files, keep: set<int>, stuck: set<string>, swept: Files)
    requires IsSwept(files, keep, stuck, swept)
    requires forall num | HasEpisodeFile(files, num) :: num in keep
    ensures forall num :: HasEpisodeFile(swept, num) <==> HasEpisodeFile(files, num)
  {
    forall name | name in files && EpisodeNumber(name).Some? ensures name in swept {
      assert HasEpisodeFile(files, EpisodeNumber(name).value);
      RemainingIsNoEpisode();
    }
    forall num ensures HasEpisodeFile(swept, num) <==> HasEpisodeFile(files, num) {
      if HasEpisodeFile(files, num) {
        var name :| name in files && EpisodeNumber(name) == Some(num);
        assert name in swept;
      }
    }
  }

  /** How many of the numbers have got a file when the commit is stopped. */
  function Reached(trouble: Trouble, all: nat): nat
    requires trouble.AtWrite? ==> trouble.done < all
  {
    match trouble
    case NoTrouble => all
    case AtWrite(done, begun) => if begun.Some? then done + 1 else done
    case AtSweep(left) => all
    case AtSave => all
  }

  lemma StoppedNumbers(disk: Disk, cache: map<string, string>, entries: seq<Entry>, trouble: Trouble, files: Files)
    requires IsNumbered(entries) && Writable(disk, cache, entries)
    requires IsStopped(disk, cache, entries, trouble, files)
    requires forall num | HasEpisodeFile(disk.files, num) :: 1 <= num <= |entries|
    ensures trouble.AtWrite? ==> trouble.done < |entries|
    ensures forall num :: HasEpisodeFile(files, num) <==>
              HasEpisodeFile(disk.files, num) || 1 <= num <= Reached(trouble, |entries|)
  {
    NumberedWrites(disk, cache, entries);
    var writes := WritesOf(disk, cache, entries).value;
    if trouble.AtWrite? {
      NumbersTorn(disk.files, writes, trouble.done, trouble.begun);
    } else {
      NumbersWritten(disk.files, writes, |writes|);
      assert writes[..|writes|] == writes;
      NumberedOrder(entries);
      SweptNumbers(Applied(disk.files, writes), KnownNums(entries), Staying(disk.stuck, trouble), files);
    }
  }

  // ----- what the files hold

  lemma {:induction false} WritesOfFirst(disk: Disk, cache: map<string, string>, entries: seq<Entry>, n: nat)
    requires IsNumbered(entries) && Writable(disk, cache, entries) && n <= |entries|
    ensures WritesOf(disk, cache, entries).Some? && |WritesOf(disk, cache, entries).value| == |entries|
    ensures WritesOf(disk, cache, entries[..n]) == Some(WritesOf(disk, cache, entries).value[..n])
  {
    NumberedWrites(disk, cache, entries);
    if n == |entries| {
      assert entries[..n] == entries;
      assert WritesOf(disk, cache, entries).value[..n] == WritesOf(disk, cache, entries).value;
    } else {
      var k := |entries| - 1;
      NumberedPrefix(disk, cache, entries);
      WritesOfFirst(disk, cache, entries[..k], n);
      OneMoreWritten(disk, cache, entries);
      assert entries[..k][..n] == entries[..n];
      assert WritesOf(disk, cache, entries).value[..k][..n] == WritesOf(disk, cache, entries).value[..n];
    }
  }

  lemma OneMoreWritten(disk: Disk, cache: map<string, string>, entries: seq<Entry>)
    requires IsNumbered(entries) && Writable(disk, cache, entries) && entries != []
    ensures var k := |entries| - 1;
            && WritesOf(disk, cache, entries).Some? && |WritesOf(disk, cache, entries).value| == |entries|
            && WritesOf(disk, cache, entries[..k]) == Some(WritesOf(disk, cache, entries).value[..k])
            && IsPieceOf(disk.sources, entries[k], WritesOf(disk, cache, entries).value[k].1)
  {
    var k := |entries| - 1;
    NumberedPrefix(disk, cache, entries);
    NumberedWrites(disk, cache, entries);
    NumberedWrites(disk, cache, entries[..k]);
    PieceIsFiled(disk, cache, entries[k], k + 1, disk.files);
  }

  lemma {:induction false} AppliedElsewhere(files: Files, writes: seq<(int, string)>, name: string)
    requires forall i | 0 <= i < |writes| :: CanonicalName(writes[i].0) != name
    ensures (name in Applied(files, writes) <==> name in files)
            && (name in files ==> Applied(files, writes)[name] == files[name])
  {
    if writes != [] {
      AppliedElsewhere(files, writes[..|writes| - 1], name);
    }
  }

  /** The file holds a beginning of the row's text. */
  ghost predicate IsBegun(files: Files, sources: seq<SourceDoc>, e: Entry, num: int)
  {
    && CanonicalName(num) in files && Coords(e).Some? && InBounds(sources, Coords(e).value)
    && var r := Coords(e).value;
       files[CanonicalName(num)] <= TextAt(sources, r.rel)[r.start..r.end]
  }

  /**
   A commit stopped while it writes episode `done` + 1 has left the exact text of each episode before it, and a
   beginning of that one, if anything of it.
   */
  lemma StoppedContents(
    disk: Disk, cache: map<string, string>, entries: seq<Entry>, done: nat, begun: Option<nat>, files: Files)
    requires IsNumbered(entries) && Writable(disk, cache, entries)
    requires IsStopped(disk, cache, entries, AtWrite(done, begun), files)
    ensures done < |entries| && InSync(files, entries[..done], disk.sources)
    ensures begun.Some? ==> IsBegun(files, disk.sources, entries[done], done + 1)
  {
    NumberedWrites(disk, cache, entries);
    FirstInSync(disk, cache, entries, done);
    NextWrite(disk, cache, entries, done);
    if begun.Some? {
      var writes := WritesOf(disk, cache, entries).value;
      var content := Beginning(writes[done].1, begun.value);
      TornStaysFiled(disk, entries[..done], Applied(disk.files, writes[..done]), content);
      BeginningIsBegun(Applied(disk.files, writes[..done]), disk.sources, entries[done], done + 1, writes[done].1,
                       begun.value);
    }
  }

  lemma BeginningIsBegun(files: Files, sources: seq<SourceDoc>, e: Entry, num: int, piece: string, count: nat)
    requires IsPieceOf(sources, e, piece)
    ensures IsBegun(files[CanonicalName(num) := Beginning(piece, count)], sources, e, num)
  {
  }

  /** Every file under another name is as it was. */
  lemma StoppedElsewhere(
    disk: Disk, cache: map<string, string>, entries: seq<Entry>, done: nat, begun: Option<nat>, files: Files,
    name: string)
    requires IsNumbered(entries) && Writable(disk, cache, entries)
    requires IsStopped(disk, cache, entries, AtWrite(done, begun), files)
    requires forall num: nat | 1 <= num <= (if begun.Some? then done + 1 else done) :: name != CanonicalName(num)
    ensures name in files <==> name in disk.files
    ensures name in files ==> files[name] == disk.files[name]
  {
    NumberedWrites(disk, cache, entries);
    AppliedElsewhere(disk.files, WritesOf(disk, cache, entries).value[..done], name);
  }

  lemma FirstInSync(disk: Disk, cache: map<string, string>, entries: seq<Entry>, done: nat)
    requires IsNumbered(entries) && Writable(disk, cache, entries) && done <= |entries|
    ensures WritesOf(disk, cache, entries).Some? && |WritesOf(disk, cache, entries).value| == |entries|
    ensures InSync(Applied(disk.files, WritesOf(disk, cache, entries).value[..done]), entries[..done], disk.sources)
  {
    WritesOfFirst(disk, cache, entries, done);
    WrittenInSync(disk, cache, entries[..done]);
  }

  /** The text that is next to be written. */
  lemma NextWrite(disk: Disk, cache: map<string, string>, entries: seq<Entry>, done: nat)
    requires IsNumbered(entries) && Writable(disk, cache, entries) && done < |entries|
    ensures WritesOf(disk, cache, entries).Some? && |WritesOf(disk, cache, entries).value| == |entries|
    ensures IsPieceOf(disk.sources, entries[done], WritesOf(disk, cache, entries).value[done].1)
  {
    var upTo := entries[..done + 1];
    WritesOfFirst(disk, cache, entries, done + 1);
    OneMoreWritten(disk, cache, upTo);
    assert upTo[done] == entries[done];
  }

  lemma TornStaysFiled(disk: Disk, entries: seq<Entry>, files: Files, content: string)
    requires InSync(files, entries, disk.sources)
    ensures InSync(files[CanonicalName(|entries| + 1) := content], entries, disk.sources)
  {
    forall i | 0 <= i < |entries|
      ensures IsFiled(files[CanonicalName(|entries| + 1) := content], disk.sources, entries[i], i + 1)
    {
      FiledStays(files, disk.sources, entries[i], i + 1, |entries| + 1, content);
    }
  }

  // ----- the next plan call

  /** A commit stopped on a planner-made ledger, with every file it may have left behind. */
  lemma FailedCommitFiles(
    p: Project, disk: Disk, pending: Pending, normalize: string -> string, trouble: Trouble, files: Files)
    requires DistinctRels(disk.sources) && IsTiled(p, disk.sources)
    requires IsPending(pending, disk.sources, normalize)
    requires IsFailedCommit(p, disk, pending.snap, pending.drafts, pending.ends, trouble, files)
    ensures NoOrphans(p.episodes.entries, disk.files)
    ensures NoOrphans(p.episodes.entries, files) <==> !CreatedNew(trouble, |p.episodes.entries|)
  {
    var entries, all := p.episodes.entries, CommittedEntries(p, disk, pending);
    var cache := map[pending.snap.rel := pending.snap.text];
    FailedCommitStops(p, disk, pending, normalize, trouble, files);
    NumberedOrder(entries);
    forall num | HasEpisodeFile(disk.files, num) ensures 1 <= num <= |all| {
      assert num in KnownNums(entries);
    }
    StoppedNumbers(disk, cache, all, trouble, files);
    var reached := Reached(trouble, |all|);
    assert CreatedNew(trouble, |entries|) <==> reached > |entries|;
    if reached > |entries| {
      assert HasEpisodeFile(files, |entries| + 1) && |entries| + 1 !in KnownNums(entries);
    }
  }

  lemma FailedCommitStops(
    p: Project, disk: Disk, pending: Pending, normalize: string -> string, trouble: Trouble, files: Files)
    requires DistinctRels(disk.sources) && IsTiled(p, disk.sources)
    requires IsPending(pending, disk.sources, normalize)
    requires IsFailedCommit(p, disk, pending.snap, pending.drafts, pending.ends, trouble, files)
    ensures NoOrphans(p.episodes.entries, disk.files)
    ensures var all := CommittedEntries(p, disk, pending);
            var cache := map[pending.snap.rel := pending.snap.text];
            && IsNumbered(all) && |all| > |p.episodes.entries| && Writable(disk, cache, all)
            && IsStopped(disk, cache, all, trouble, files)
  {
    var healed :| IsRegistered(p, disk, healed)
                  && IsFailedCommitOfHealed(healed, disk, pending.snap, pending.drafts, pending.ends, trouble, files);
    PassedGates(p, disk, pending.snap, healed);
    BatchContinues(p, disk, pending, normalize);
    BatchFits(p, disk, pending);
    FailedOnTiled(p, disk, pending, trouble, files);
  }

  lemma FailedOnTiled(p: Project, disk: Disk, pending: Pending, trouble: Trouble, files: Files)
    requires p.episodes.Listed? && |pending.drafts| == |pending.ends| > 0
    requires IsFailedCommitOfHealed(p, disk, pending.snap, pending.drafts, pending.ends, trouble, files)
    requires pending.snap.text == TextAt(disk.sources, pending.snap.rel)
    requires var all := CommittedEntries(p, disk, pending);
             && CommittedRows(p, disk, pending.snap, pending.drafts, pending.ends) == all
             && IsTiled(CommittedProject(all, disk, pending.snap, pending.ends), disk.sources)
    ensures var all := CommittedEntries(p, disk, pending);
            var cache := map[pending.snap.rel := pending.snap.text];
            && IsNumbered(all) && |all| > |p.episodes.entries| && Writable(disk, cache, all)
            && IsStopped(disk, cache, all, trouble, files)
  {
    TiledRowsInBounds(CommittedEntries(p, disk, pending), disk.sources);
  }

  /** A commit that goes through leaves a file for each episode and no other numbered file. */
  lemma CommitLeavesNoOrphans(
    p: Project, disk: Disk, pending: Pending, normalize: string -> string, r: Result<Committed, PlanError>)
    requires DistinctRels(disk.sources) && IsTiled(p, disk.sources)
    requires IsPending(pending, disk.sources, normalize)
    requires IsCommit(p, disk, pending.snap, pending.drafts, pending.ends, r) && r.Ok?
    ensures r.value.project.episodes.Listed?
    ensures NoOrphans(r.value.project.episodes.entries, r.value.files)
  {
    var healed :| IsRegistered(p, disk, healed)
                  && IsCommitOfHealed(healed, disk, pending.snap, pending.drafts, pending.ends, r);
    DoneIfOk(healed, disk, pending, r);
    PassedGates(p, disk, pending.snap, healed);
    BatchContinues(p, disk, pending, normalize);
    BatchFits(p, disk, pending);
    DoneLeavesNoOrphans(p, disk, pending, r.value);
  }

  lemma DoneLeavesNoOrphans(p: Project, disk: Disk, pending: Pending, done: Committed)
    requires IsTiled(p, disk.sources) && NoOrphans(p.episodes.entries, disk.files)
    requires |pending.drafts| == |pending.ends| > 0
    requires IsDone(p, disk, pending.snap, pending.drafts, pending.ends, done)
    requires pending.snap.text == TextAt(disk.sources, pending.snap.rel)
    requires var all := CommittedEntries(p, disk, pending);
             && CommittedRows(p, disk, pending.snap, pending.drafts, pending.ends) == all
             && IsTiled(CommittedProject(all, disk, pending.snap, pending.ends), disk.sources)
    ensures done.project.episodes == Listed(CommittedEntries(p, disk, pending))
    ensures NoOrphans(CommittedEntries(p, disk, pending), done.files)
  {
    SweptLeavesNoOrphans(
      p, disk, map[pending.snap.rel := pending.snap.text], CommittedEntries(p, disk, pending), done.files);
  }

  lemma SweptLeavesNoOrphans(p: Project, disk: Disk, cache: map<string, string>, all: seq<Entry>, files: Files)
    requires IsTiled(p, disk.sources) && NoOrphans(p.episodes.entries, disk.files)
    requires IsNumbered(all) && IsTiling(disk.sources, RangesOf(all)) && |p.episodes.entries| <= |all|
    requires forall rel | rel in cache && 0 <= Idx(disk.sources, rel) :: cache[rel] == TextAt(disk.sources, rel)
    requires IsReconciled(disk, cache, all, Some(files))
    ensures NoOrphans(all, files)
  {
    TiledRowsInBounds(all, disk.sources);
    NumberedOrder(p.episodes.entries);
    NumberedOrder(all);
    forall num | HasEpisodeFile(disk.files, num) ensures 1 <= num <= |all| {
      assert num in KnownNums(p.episodes.entries);
    }
    SavedIsStopped(disk, cache, all, files);
    StoppedNumbers(disk, cache, all, AtSave, files);
  }

  lemma SavedIsStopped(disk: Disk, cache: map<string, string>, entries: seq<Entry>, files: Files)
    requires IsReconciled(disk, cache, entries, Some(files))
    ensures IsStopped(disk, cache, entries, AtSave, files)
  {
  }

  /** A plan call on a planner-made ledger is turned away for a missing range exactly when a file has no row. */
  lemma MissingRangeIffOrphans(p: Project, disk: Disk, windowChars: int, r: Result<Outlook, PlanError>)
    requires DistinctRels(disk.sources) && IsTiled(p, disk.sources) && windowChars >= 1
    requires IsOutlook(p, disk, windowChars, r)
    ensures r == Err(MissingRange) <==> !NoOrphans(p.episodes.entries, disk.files)
    ensures NoOrphans(p.episodes.entries, disk.files) ==> IsOutlookOfHealed(p, disk, windowChars, r)
  {
    var healed :| IsRegistered(p, disk, healed) && IsOutlookOfHealed(healed, disk, windowChars, r);
    NumberedOrder(p.episodes.entries);
    if NoOrphans(p.episodes.entries, disk.files) {
      RegistrationIsIdle(p, disk, healed);
      NotMissing(p, disk, windowChars, r);
    } else if !SomeLackRange(Rows(healed)) {
      TiledRegistration(p, disk, healed);
      assert false;
    }
  }

  lemma NotMissing(p: Project, disk: Disk, windowChars: int, r: Result<Outlook, PlanError>)
    requires windowChars >= 1 && IsOutlookOfHealed(p, disk, windowChars, r) && !SomeLackRange(Rows(p))
    ensures r != Err(MissingRange)
  {
  }

  /**
   A rerun does not always heal an interrupted commit: the next plan call is refused, for want of a range, exactly when
   the failure came after the file of a new episode had been created. Otherwise it finds what it would have found
   before.
   */
  lemma RerunAfterFailure(
    p: Project, disk: Disk, pending: Pending, normalize: string -> string, trouble: Trouble, files: Files,
    windowChars: int, r: Result<Outlook, PlanError>)
    requires DistinctRels(disk.sources) && IsTiled(p, disk.sources)
    requires IsPending(pending, disk.sources, normalize)
    requires IsFailedCommit(p, disk, pending.snap, pending.drafts, pending.ends, trouble, files)
    requires windowChars >= 1 && IsOutlook(p, disk.(files := files), windowChars, r)
    ensures r == Err(MissingRange) <==> CreatedNew(trouble, |p.episodes.entries|)
    ensures !CreatedNew(trouble, |p.episodes.entries|) ==> IsOutlook(p, disk, windowChars, r)
  {
    FailedCommitFiles(p, disk, pending, normalize, trouble, files);
    MissingRangeIffOrphans(p, disk.(files := files), windowChars, r);
    if NoOrphans(p.episodes.entries, files) {
      SameOutlook(p, disk, files, windowChars, r);
    }
  }

  /** Without orphans a plan call depends on the derived files in no way. */
  lemma SameOutlook(p: Project, disk: Disk, files: Files, windowChars: int, r: Result<Outlook, PlanError>)
    requires windowChars >= 1 && IsOutlookOfHealed(p, disk.(files := files), windowChars, r)
    requires p.episodes.Listed? && IsNumbered(p.episodes.entries) && NoOrphans(p.episodes.entries, disk.files)
    ensures IsOutlook(p, disk, windowChars, r)
  {
    RegistersAsItIs(p, disk);
    assert IsOutlookOfHealed(p, disk, windowChars, r);
  }

  lemma RegistersAsItIs(p: Project, disk: Disk)
    requires p.episodes.Listed? && IsNumbered(p.episodes.entries) && NoOrphans(p.episodes.entries, disk.files)
    ensures IsRegistered(p, disk, p)
  {
    var entries := p.episodes.entries;
    var nums := AscendingOf(EpisodeNums(disk.files));
    NumberedOrder(entries);
    forall n | n in nums ensures n in KnownNums(entries) {
      assert HasEpisodeFile(disk.files, n);
    }
    WithOrphansNothingToAdd(entries, nums, disk);
    SortingInOrder(entries);
  }

  ghost function AscendingOf(nums: set<int>): (s: seq<int>)
    ensures IsAscending(s, nums)
  {
    if nums == {} then []
    else
      ExistsMin(nums);
      var n :| n in nums && forall m | m in nums :: n <= m;
      [n] + AscendingOf(nums - {n})
  }

  // ----- an input

  function EmptyProject(): Project
  {
    Project(Listed([]), NoCursor, NoFingerprints)
  }

  /** A directory with one source of two characters and nothing else. */
  function SmallDisk(): Disk
  {
    Disk([SourceDoc("a", "xy")], map[], map[], {}, {}, {}, {})
  }

  /** One episode that takes the whole of it. */
  function SmallPending(): Pending
  {
    Pending(Snap(Place("a", 0), "a", 0, "xy", "xy", true, map["a" := "xy"]), [Draft("", "", "xy")], [2])
  }

  lemma SmallResolution(normalize: string -> string)
    ensures IsResolution("xy", ["xy"], true, normalize, [2])
  {
    assert OccursAt("xy", "xy", 0);
    assert forall i | OccursAt("xy", "xy", i) :: i == 0;
    assert EndsAt("xy", "xy", normalize, 2);
    assert IsSnappedCut("xy", ["xy"], true, normalize, [2], [2]);
  }

  lemma SmallOutlook()
    ensures OutlookFrom(SmallDisk(), Place("a", 0), 2) == Ok(Window(SmallPending().snap))
  {
    var disk := SmallDisk();
    IndexOfAt(disk.sources, 0);
    assert "xy"[0..] == "xy" && !IsSpace("xy"[0]);
    assert !IsBlank("xy");
    assert SkipBlank(disk.sources, 0, 0) == Some((0, 0));
    assert "xy"[0..2] == "xy";
    SmallDigests();
  }

  lemma SmallDigests()
    ensures Digests(SmallDisk().sources)["a" := "xy"] == map["a" := "xy"]
  {
    var m, sources := Digests(SmallDisk().sources), SmallDisk().sources;
    forall rel | rel in m ensures rel == "a" {
      assert IndexOf(sources, rel).Some?;
    }
  }

  lemma SmallIsPending(normalize: string -> string)
    ensures IsPending(SmallPending(), SmallDisk().sources, normalize)
  {
    SmallResolution(normalize);
    SmallOutlook();
    assert Anchors(SmallPending().drafts) == ["xy"];
    assert IsSnapOf(SmallDisk().sources, SmallDisk(), 2, SmallPending().snap);
  }

  lemma SmallIsEmpty()
    ensures IsTiled(EmptyProject(), SmallDisk().sources) && DistinctRels(SmallDisk().sources)
    ensures NoOrphans([], SmallDisk().files) && IsRegistered(EmptyProject(), SmallDisk(), EmptyProject())
    ensures EffectiveStart(EmptyProject(), SmallDisk().sources) == Some(Place("a", 0))
  {
    assert forall num :: !HasEpisodeFile(SmallDisk().files, num);
    RegistersAsItIs(EmptyProject(), SmallDisk());
  }

  /** The file of the new episode is created and left empty. */
  function SmallFiles(): Files
  {
    map[CanonicalName(1) := ""]
  }

  function SmallRows(): seq<Entry>
  {
    [NewEntry(SmallDisk(), 1, Draft("", "", "xy"), Range("a", 0, 2))]
  }

  lemma SmallCommittedRows()
    ensures var pending := SmallPending();
            CommittedRows(EmptyProject(), SmallDisk(), pending.snap, pending.drafts, pending.ends) == SmallRows()
  {
    BatchRows(EmptyProject(), SmallDisk(), SmallPending());
    assert CommittedEntries(EmptyProject(), SmallDisk(), SmallPending()) == SmallRows();
  }

  lemma SmallWritesOf()
    ensures WritesOf(SmallDisk(), map["a" := "xy"], SmallRows()) == Some([(1, "xy")])
  {
    var rows, cache := SmallRows(), map["a" := "xy"];
    NewEntryIsRow(SmallDisk(), 1, Draft("", "", "xy"), Range("a", 0, 2));
    assert "xy"[0..2] == "xy";
    assert PieceOf(SmallDisk(), cache, rows[0]) == Some("xy") && NumOf(rows[0]) == Some(1);
    assert rows[..|rows| - 1] == [];
    var none: seq<(int, string)> := [];
    assert none + [(1, "xy")] == [(1, "xy")];
  }

  lemma SmallStop()
    ensures IsStopped(SmallDisk(), map["a" := "xy"], SmallRows(), AtWrite(0, Some(0)), SmallFiles())
  {
    SmallWritesOf();
    var writes := [(1, "xy")];
    assert writes[..0] == [];
    assert Beginning("xy", 0) == "";
    assert Applied(map[], writes[..0]) == map[];
  }

  lemma SmallRefusal()
    ensures Refusal(EmptyProject(), SmallDisk(), SmallPending().snap) == None
  {
    SmallIsEmpty();
    IndexOfAt(SmallDisk().sources, 0);
    assert !ChangedSince(SmallPending().snap.used, SmallDisk().sources);
  }

  /**
   The input that shows it: nothing planned yet, one source, a batch of one episode, and a disk that fills up as its
   file is created. Whatever its window, the next plan call is refused, and there is one.
   */
  lemma OneStoppedCommitBlocks(normalize: string -> string)
    ensures var p, disk, pending, files := EmptyProject(), SmallDisk(), SmallPending(), SmallFiles();
            && IsTiled(p, disk.sources) && IsPending(pending, disk.sources, normalize)
            && IsOutlook(p, disk, 2, Ok(Window(pending.snap)))
            && IsFailedCommit(p, disk, pending.snap, pending.drafts, pending.ends, AtWrite(0, Some(0)), files)
            && (forall windowChars, r | windowChars >= 1 && IsOutlook(p, disk.(files := files), windowChars, r) ::
                  r == Err(MissingRange))
            && IsOutlook(p, disk.(files := files), 2, Err(MissingRange))
  {
    var p, disk, pending, files := EmptyProject(), SmallDisk(), SmallPending(), SmallFiles();
    SmallIsEmpty();
    SmallIsPending(normalize);
    SmallOutlook();
    assert IsOutlookOfHealed(p, disk, 2, Ok(Window(pending.snap)));
    SmallCommittedRows();
    SmallStop();
    SmallRefusal();
    assert IsFailedCommitOfHealed(p, disk, pending.snap, pending.drafts, pending.ends, AtWrite(0, Some(0)), files);
    forall windowChars, r | windowChars >= 1 && IsOutlook(p, disk.(files := files), windowChars, r)
      ensures r == Err(MissingRange)
    {
      RerunAfterFailure(p, disk, pending, normalize, AtWrite(0, Some(0)), files, windowChars, r);
    }
    FailedCommitFiles(p, disk, pending, normalize, AtWrite(0, Some(0)), files);
    OrphansAreRefused(p, disk.(files := files), 2);
  }

  /** With a file that belongs to no episode a plan call is refused, and not only not answered. */
  lemma OrphansAreRefused(p: Project, disk: Disk, windowChars: int)
    requires DistinctRels(disk.sources) && IsTiled(p, disk.sources) && windowChars >= 1
    requires !NoOrphans(p.episodes.entries, disk.files)
    ensures IsOutlook(p, disk, windowChars, Err(MissingRange))
  {
    var nums := AscendingOf(EpisodeNums(disk.files));
    var healed := p.(episodes := Listed(SortIfPossible(WithOrphans(p.episodes.entries, nums, disk))));
    assert IsRegistered(p, disk, healed);
    if !SomeLackRange(Rows(healed)) {
      TiledRegistration(p, disk, healed);
    }
    assert IsOutlookOfHealed(healed, disk, windowChars, Err(MissingRange));
  }

  // ----- the way out

  /** The numbers that have files after a commit was stopped. */
  lemma FailedCommitNumbers(
    p: Project, disk: Disk, pending: Pending, normalize: string -> string, trouble: Trouble, files: Files)
    requires DistinctRels(disk.sources) && IsTiled(p, disk.sources)
    requires IsPending(pending, disk.sources, normalize)
    requires IsFailedCommit(p, disk, pending.snap, pending.drafts, pending.ends, trouble, files)
    ensures forall num | HasEpisodeFile(files, num) :: num >= 1
  {
    var entries, all := p.episodes.entries, CommittedEntries(p, disk, pending);
    FailedCommitStops(p, disk, pending, normalize, trouble, files);
    NumberedOrder(entries);
    forall num | HasEpisodeFile(disk.files, num) ensures 1 <= num <= |all| {
      assert num in KnownNums(entries);
    }
    StoppedNumbers(disk, map[pending.snap.rel := pending.snap.text], all, trouble, files);
  }

  /** Any reset, full or partial, clears the way again: the files without a row lie in its scope. */
  lemma ResetUnblocks(
    p: Project, disk: Disk, pending: Pending, normalize: string -> string, trouble: Trouble, files: Files,
    from: int, allowed: set<int>, p': Project, disk': Disk, windowChars: int, r: Result<Outlook, PlanError>)
    requires DistinctRels(disk.sources) && IsTiled(p, disk.sources)
    requires IsPending(pending, disk.sources, normalize)
    requires IsFailedCommit(p, disk, pending.snap, pending.drafts, pending.ends, trouble, files)
    requires IsReset(p, disk.(files := files), from, allowed, p', disk')
    requires windowChars >= 1 && IsOutlook(p', disk', windowChars, r)
    ensures IsTiled(p', disk'.sources) && NoOrphans(p'.episodes.entries, disk'.files)
    ensures r != Err(MissingRange)
  {
    FailedCommitNumbers(p, disk, pending, normalize, trouble, files);
    ResetKeepsTiling(p, disk.(files := files), from, allowed, p', disk');
    NoFilesInScope(p, disk.(files := files), from, allowed, p', disk');
    KeptNumbers(p, from, p', disk'.files, disk'.sources);
    MissingRangeIffOrphans(p', disk', windowChars, r);
  }

  lemma KeptNumbers(p: Project, from: int, p': Project, files: Files, sources: seq<SourceDoc>)
    requires IsTiled(p', sources) && p.episodes.Listed? && IsNumbered(p.episodes.entries)
    requires from == 1 || (2 <= from <= |p.episodes.entries| && p' == KeptBefore(p, from))
    requires forall num | HasEpisodeFile(files, num) :: !InScope(from, num) && num >= 1
    ensures NoOrphans(p'.episodes.entries, files)
  {
    NumberedOrder(p'.episodes.entries);
  }
}
