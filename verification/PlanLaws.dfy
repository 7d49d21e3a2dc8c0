/** What a commit does to a tiled ledger, and what it leaves on disk. */
module PlanLaws {
  import opened Wrappers
  import opened SourceText
  import opened Boundaries
  import opened Sequences
  import opened EpisodeFiles
  import opened Ledger
  import opened Tiling
  import opened PlanSpec
  import opened LedgerInvariant

  /** The anchors of drafts. */
  function Anchors(drafts: seq<Draft>): (r: seq<string>)
  {
    seq(|drafts|, i requires 0 <= i < |drafts| => drafts[i].endAnchor)
  }

  /**
   What a plan call holds when it asks for the lock: a snapshot of some earlier state and drafts resolved against it.
   */
  datatype Pending = Pending(snap: Snap, drafts: seq<Draft>, ends: seq<int>)

  /**
   The snapshot may be of any ledger and any directory with these sources; the drafts are whatever the model wrote.
   */
  ghost predicate IsPending(pending: Pending, sources: seq<SourceDoc>, normalize: string -> string)
  {
    && |pending.drafts| == |pending.ends| > 0
    && IsResolution(pending.snap.window, Anchors(pending.drafts), pending.snap.final, normalize, pending.ends)
    && exists disk, windowChars :: windowChars >= 1 && IsSnapOf(sources, disk, windowChars, pending.snap)
  }

  /** A snapshot depends on the directory only through the sources, when it starts in one of them. */
  lemma SnapOfAnyDisk(sources: seq<SourceDoc>, before: Disk, now: Disk, windowChars: int, snap: Snap)
    requires windowChars >= 1 && IsSnapOf(sources, before, windowChars, snap) && now.sources == sources
    requires 0 <= Idx(sources, snap.startRef.rel)
    ensures IsSnapOf(sources, now, windowChars, snap)
  {
  }

  /** Each row's range, cut out of its source. */
  ghost predicate IsPieceOf(sources: seq<SourceDoc>, e: Entry, piece: string)
  {
    Coords(e).Some? && IsPiece(sources, Coords(e).value, piece)
  }

  /** The canonical file of episode `num` holds exactly the text of the row's range. */
  ghost predicate IsFiled(files: Files, sources: seq<SourceDoc>, e: Entry, num: int)
  {
    CanonicalName(num) in files && IsPieceOf(sources, e, files[CanonicalName(num)])
  }

  ghost predicate InSync(files: Files, entries: seq<Entry>, sources: seq<SourceDoc>)
  {
    forall i | 0 <= i < |entries| :: IsFiled(files, sources, entries[i], i + 1)
  }

  lemma FiledStays(files: Files, sources: seq<SourceDoc>, e: Entry, num: nat, other: nat, content: string)
    requires IsFiled(files, sources, e, num) && num != other
    ensures IsFiled(files[CanonicalName(other) := content], sources, e, num)
  {
    assert EpisodeNumber(CanonicalName(num)) == Some(num) && EpisodeNumber(CanonicalName(other)) == Some(other);
  }

  lemma PieceIsFiled(disk: Disk, cache: map<string, string>, e: Entry, num: nat, files: Files)
    requires Coords(e).Some? && InBounds(disk.sources, Coords(e).value)
    requires forall rel | rel in cache && 0 <= Idx(disk.sources, rel) :: cache[rel] == TextAt(disk.sources, rel)
    ensures PieceOf(disk, cache, e).Some?
    ensures IsFiled(files[CanonicalName(num) := PieceOf(disk, cache, e).value], disk.sources, e, num)
  {
  }

  /** Every row has coordinates inside its source, and the cache agrees with the sources. */
  ghost predicate Writable(disk: Disk, cache: map<string, string>, entries: seq<Entry>)
  {
    && (forall rel | rel in cache && 0 <= Idx(disk.sources, rel) :: cache[rel] == TextAt(disk.sources, rel))
    && forall i | 0 <= i < |entries| :: Coords(entries[i]).Some? && InBounds(disk.sources, Coords(entries[i]).value)
  }

  lemma {:induction false} WrittenInSync(disk: Disk, cache: map<string, string>, entries: seq<Entry>)
    requires IsNumbered(entries) && Writable(disk, cache, entries)
    ensures Written(disk, cache, entries).Some?
    ensures InSync(Written(disk, cache, entries).value, entries, disk.sources)
  {
    if entries != [] {
      var init := entries[..|entries| - 1];
      NumberedPrefix(disk, cache, entries);
      WrittenInSync(disk, cache, init);
      WrittenOneMore(disk, cache, init, entries[|entries| - 1]);
      InitAndLast(entries);
    }
  }

  lemma NumberedPrefix(disk: Disk, cache: map<string, string>, entries: seq<Entry>)
    requires IsNumbered(entries) && Writable(disk, cache, entries) && entries != []
    ensures var n := |entries| - 1;
            && IsNumbered(entries[..n]) && Writable(disk, cache, entries[..n])
            && IsRow(entries[n], n + 1) && Coords(entries[n]).Some? && InBounds(disk.sources, Coords(entries[n]).value)
  {
  }

  lemma WrittenOneMore(disk: Disk, cache: map<string, string>, init: seq<Entry>, e: Entry)
    requires Written(disk, cache, init).Some? && InSync(Written(disk, cache, init).value, init, disk.sources)
    requires IsRow(e, |init| + 1) && InBounds(disk.sources, Coords(e).value)
    requires forall rel | rel in cache && 0 <= Idx(disk.sources, rel) :: cache[rel] == TextAt(disk.sources, rel)
    ensures Written(disk, cache, init + [e]).Some?
    ensures InSync(Written(disk, cache, init + [e]).value, init + [e], disk.sources)
  {
    var before := Written(disk, cache, init).value;
    PieceIsFiled(disk, cache, e, |init| + 1, before);
    OneMoreFiled(before, disk.sources, init, e, PieceOf(disk, cache, e).value);
    WrittenAppend(disk, cache, init, e);
  }

  lemma WrittenAppend(disk: Disk, cache: map<string, string>, init: seq<Entry>, e: Entry)
    requires Written(disk, cache, init).Some? && NumOf(e).Some? && PieceOf(disk, cache, e).Some?
    ensures Written(disk, cache, init + [e]) ==
            Some(Written(disk, cache, init).value[CanonicalName(NumOf(e).value) := PieceOf(disk, cache, e).value])
  {
    assert (init + [e])[..|init|] == init;
    var writes, w := WritesOf(disk, cache, init).value, (NumOf(e).value, PieceOf(disk, cache, e).value);
    assert (writes + [w])[..|writes|] == writes;
  }

  lemma OneMoreFiled(files: Files, sources: seq<SourceDoc>, init: seq<Entry>, e: Entry, piece: string)
    requires InSync(files, init, sources)
    requires IsFiled(files[CanonicalName(|init| + 1) := piece], sources, e, |init| + 1)
    ensures InSync(files[CanonicalName(|init| + 1) := piece], init + [e], sources)
  {
    var after := files[CanonicalName(|init| + 1) := piece];
    forall i | 0 <= i < |init| + 1 ensures IsFiled(after, sources, (init + [e])[i], i + 1) {
      if i < |init| {
        FiledStays(files, sources, init[i], i + 1, |init| + 1, piece);
      }
    }
  }

  /** Numbered rows stay numbered, and their ranges run on, when a batch is added. */
  lemma AppendedRows(
    disk: Disk, entries: seq<Entry>, drafts: seq<Draft>, ranges: seq<Range>, all: seq<Entry>)
    requires IsNumbered(entries) && |drafts| == |ranges|
    requires all == entries + NewEntries(disk, |entries| + 1, drafts, ranges)
    ensures IsNumbered(all) && RangesOf(all) == RangesOf(entries) + ranges
    ensures SortIfPossible(all) == all
  {
    forall i | 0 <= i < |all| ensures IsRow(all[i], i + 1) {
      AppendedRow(disk, entries, drafts, ranges, all, i);
    }
    AppendedRanges(disk, entries, drafts, ranges, all);
    NumberedOrder(all);
    SortingInOrder(all);
  }

  lemma AppendedRanges(
    disk: Disk, entries: seq<Entry>, drafts: seq<Draft>, ranges: seq<Range>, all: seq<Entry>)
    requires IsNumbered(entries) && IsNumbered(all) && |drafts| == |ranges|
    requires all == entries + NewEntries(disk, |entries| + 1, drafts, ranges)
    ensures RangesOf(all) == RangesOf(entries) + ranges
  {
    forall i | 0 <= i < |all| ensures RangesOf(all)[i] == (RangesOf(entries) + ranges)[i] {
      AppendedRow(disk, entries, drafts, ranges, all, i);
    }
  }

  lemma AppendedRow(
    disk: Disk, entries: seq<Entry>, drafts: seq<Draft>, ranges: seq<Range>, all: seq<Entry>, i: nat)
    requires IsNumbered(entries) && |drafts| == |ranges|
    requires all == entries + NewEntries(disk, |entries| + 1, drafts, ranges) && i < |all|
    ensures IsRow(all[i], i + 1)
    ensures Coords(all[i]) == Some(if i < |entries| then RangesOf(entries)[i] else ranges[i - |entries|])
  {
    if i < |entries| {
      assert IsRow(entries[i], i + 1);
    } else {
      NewEntryIsRow(disk, i + 1, drafts[i - |entries|], ranges[i - |entries|]);
    }
  }

  lemma NewEntryIsRow(disk: Disk, num: int, draft: Draft, r: Range)
    ensures IsRow(NewEntry(disk, num, draft, r), num) && Coords(NewEntry(disk, num, draft, r)) == Some(r)
  {
  }

  lemma PendingIsBatch(pending: Pending, sources: seq<SourceDoc>, normalize: string -> string)
    requires IsPending(pending, sources, normalize)
    requires 0 <= pending.snap.start && |pending.snap.window| <= |pending.snap.text| - pending.snap.start
    ensures IsBatch(pending.ends, pending.snap.start, |pending.snap.text|)
    ensures pending.ends[|pending.ends| - 1] <= |pending.snap.window|
  {
    ResolutionIsOrdered(pending.snap.window, Anchors(pending.drafts), pending.snap.final, normalize, pending.ends);
  }

  /** The rows a successful commit adds to a tiled ledger. */
  ghost function CommittedEntries(p: Project, disk: Disk, pending: Pending): seq<Entry>
    requires p.episodes.Listed? && |pending.drafts| == |pending.ends|
  {
    p.episodes.entries + NewEntries(disk, |p.episodes.entries| + 1, pending.drafts,
                                    BatchRanges(pending.snap.rel, pending.snap.start, pending.ends))
  }

  /** The cursor a commit writes. */
  function EndOfBatch(pending: Pending): CursorValue
    requires pending.ends != []
  {
    CursorAt(Path(pending.snap.rel), Int(pending.snap.start + pending.ends[|pending.ends| - 1]))
  }

  /**
   What a successful commit leaves: the old rows and the batch's, still tiled, with the cursor at the batch's end and
   every derived file to match; and that it went on from where the ledger stood.
   */
  ghost predicate IsExtension(p: Project, disk: Disk, pending: Pending, done: Committed)
    requires p.episodes.Listed? && |pending.drafts| == |pending.ends| > 0
  {
    && IsTiled(done.project, disk.sources)
    && done.project.episodes == Listed(CommittedEntries(p, disk, pending))
    && done.project.cursor == EndOfBatch(pending)
    && InSync(done.files, done.project.episodes.entries, disk.sources)
    && done.exhausted == IsLastBatch(disk.sources, pending.snap, pending.ends)
    && EffectiveStart(p, disk.sources) == Some(pending.snap.startRef)
    && NoOrphans(p.episodes.entries, disk.files)
  }

  /**
   Whatever has happened since its snapshot, a commit onto a tiled ledger is refused or extends the tiling by exactly
   its batch, rewrites every derived file from it, and cannot fail once its checks have passed.
   */
  lemma CommitKeepsTiling(
    p: Project, disk: Disk, pending: Pending, normalize: string -> string, r: Result<Committed, PlanError>)
    requires DistinctRels(disk.sources) && IsTiled(p, disk.sources)
    requires IsPending(pending, disk.sources, normalize)
    requires IsCommit(p, disk, pending.snap, pending.drafts, pending.ends, r)
    ensures r.Err? ==> r.error != BadRange && r.error != MalformedLedger
    ensures r.Ok? ==> IsExtension(p, disk, pending, r.value)
  {
    var healed :| IsRegistered(p, disk, healed)
                  && IsCommitOfHealed(healed, disk, pending.snap, pending.drafts, pending.ends, r);
    CommitOfHealed(p, disk, pending, normalize, healed, r);
  }

  lemma CommitOfHealed(
    p: Project, disk: Disk, pending: Pending, normalize: string -> string, healed: Project,
    r: Result<Committed, PlanError>)
    requires DistinctRels(disk.sources) && IsTiled(p, disk.sources) && IsPending(pending, disk.sources, normalize)
    requires IsRegistered(p, disk, healed)
    requires IsCommitOfHealed(healed, disk, pending.snap, pending.drafts, pending.ends, r)
    ensures r.Err? ==> r.error != BadRange && r.error != MalformedLedger
    ensures r.Ok? ==> IsExtension(p, disk, pending, r.value)
  {
    var refusal := Refusal(healed, disk, pending.snap);
    if refusal == None {
      PassedGates(p, disk, pending.snap, healed);
      CheckedCommit(p, disk, pending, normalize, r);
    } else {
      RefusalKinds(p, disk, pending.snap, healed);
      assert r == Err(refusal.value);
    }
  }

  lemma RefusalKinds(p: Project, disk: Disk, snap: Snap, healed: Project)
    requires p.episodes.Listed? && IsRegistered(p, disk, healed)
    ensures Refusal(healed, disk, snap) != Some(BadRange) && Refusal(healed, disk, snap) != Some(MalformedLedger)
  {
    RegistrationKeepsKind(p, disk, healed);
  }

  lemma PassedGates(p: Project, disk: Disk, snap: Snap, healed: Project)
    requires IsTiled(p, disk.sources) && IsRegistered(p, disk, healed) && Refusal(healed, disk, snap) == None
    ensures healed == p && NoOrphans(p.episodes.entries, disk.files)
    ensures EffectiveStart(p, disk.sources) == Some(snap.startRef)
  {
    TiledRegistration(p, disk, healed);
  }

  lemma CheckedCommit(
    p: Project, disk: Disk, pending: Pending, normalize: string -> string, r: Result<Committed, PlanError>)
    requires DistinctRels(disk.sources) && IsTiled(p, disk.sources)
    requires IsPending(pending, disk.sources, normalize)
    requires Refusal(p, disk, pending.snap) == None
    requires IsCommitOfHealed(p, disk, pending.snap, pending.drafts, pending.ends, r)
    ensures r.Ok? && r.value.project ==
            CommittedProject(CommittedEntries(p, disk, pending), disk, pending.snap, pending.ends)
    ensures IsTiled(r.value.project, disk.sources)
    ensures InSync(r.value.files, CommittedEntries(p, disk, pending), disk.sources)
    ensures r.value.exhausted == IsLastBatch(disk.sources, pending.snap, pending.ends)
  {
    BatchContinues(p, disk, pending, normalize);
    BatchFits(p, disk, pending);
    CommitWrites(disk, pending.snap, CommittedEntries(p, disk, pending));
    DoneInSync(p, disk, pending, r.value);
  }

  lemma DoneInSync(p: Project, disk: Disk, pending: Pending, done: Committed)
    requires p.episodes.Listed? && |pending.drafts| == |pending.ends| > 0
    requires IsDone(p, disk, pending.snap, pending.drafts, pending.ends, done)
    requires pending.snap.text == TextAt(disk.sources, pending.snap.rel)
    requires var all := CommittedEntries(p, disk, pending);
             && CommittedRows(p, disk, pending.snap, pending.drafts, pending.ends) == all
             && IsTiled(CommittedProject(all, disk, pending.snap, pending.ends), disk.sources)
    ensures InSync(done.files, CommittedEntries(p, disk, pending), disk.sources)
  {
    SweptStaysInSync(disk, map[pending.snap.rel := pending.snap.text], CommittedEntries(p, disk, pending), done.files);
  }

  /** What passing the checks gives: a batch of cuts that goes on where the tiling ends. */
  lemma BatchContinues(p: Project, disk: Disk, pending: Pending, normalize: string -> string)
    requires DistinctRels(disk.sources) && IsTiled(p, disk.sources)
    requires IsPending(pending, disk.sources, normalize)
    requires EffectiveStart(p, disk.sources) == Some(pending.snap.startRef)
    ensures 0 <= Idx(disk.sources, pending.snap.rel) && 0 <= pending.snap.start
    ensures pending.snap.text == TextAt(disk.sources, pending.snap.rel)
    ensures IsBatch(pending.ends, pending.snap.start, |pending.snap.text|)
    ensures Continues(disk.sources, RangesOf(p.episodes.entries), pending.snap.rel, pending.snap.start)
  {
    StartIsInSources(p, disk.sources);
    var before, windowChars :| windowChars >= 1 && IsSnapOf(disk.sources, before, windowChars, pending.snap);
    SnapOfAnyDisk(disk.sources, before, disk, windowChars, pending.snap);
    SnapContinues(p, disk, pending.snap, windowChars);
    PendingIsBatch(pending, disk.sources, normalize);
  }

  /** The rows a batch that continues the tiling leads to, with the cursor the commit writes. */
  lemma BatchFits(p: Project, disk: Disk, pending: Pending)
    requires IsTiled(p, disk.sources) && |pending.drafts| == |pending.ends|
    requires 0 <= Idx(disk.sources, pending.snap.rel) && 0 <= pending.snap.start
    requires pending.snap.text == TextAt(disk.sources, pending.snap.rel)
    requires IsBatch(pending.ends, pending.snap.start, |pending.snap.text|)
    requires Continues(disk.sources, RangesOf(p.episodes.entries), pending.snap.rel, pending.snap.start)
    ensures var all := CommittedEntries(p, disk, pending);
            && CommittedRows(p, disk, pending.snap, pending.drafts, pending.ends) == all
            && IsTiled(CommittedProject(all, disk, pending.snap, pending.ends), disk.sources)
  {
    BatchRows(p, disk, pending);
    ExtendTiling(disk.sources, RangesOf(p.episodes.entries), pending.snap.rel, pending.snap.start, pending.ends);
    CommittedIsTiled(
      disk, pending.snap, RangesOf(p.episodes.entries), pending.ends, CommittedEntries(p, disk, pending));
  }

  lemma BatchRows(p: Project, disk: Disk, pending: Pending)
    requires p.episodes.Listed? && IsNumbered(p.episodes.entries) && |pending.drafts| == |pending.ends|
    ensures var all := CommittedEntries(p, disk, pending);
            && CommittedRows(p, disk, pending.snap, pending.drafts, pending.ends) == all
            && IsNumbered(all)
            && RangesOf(all) ==
               RangesOf(p.episodes.entries) + BatchRanges(pending.snap.rel, pending.snap.start, pending.ends)
  {
    var ranges := BatchRanges(pending.snap.rel, pending.snap.start, pending.ends);
    NumberedRows(p.episodes.entries);
    AppendedRows(disk, p.episodes.entries, pending.drafts, ranges, CommittedEntries(p, disk, pending));
    CommittedRowsOf(p, disk, pending);
  }

  lemma CommittedRowsOf(p: Project, disk: Disk, pending: Pending)
    requires p.episodes.Listed? && |pending.drafts| == |pending.ends|
    requires NonNull(p.episodes.entries) == p.episodes.entries && MaxNum(p.episodes.entries) == |p.episodes.entries|
    requires SortIfPossible(CommittedEntries(p, disk, pending)) == CommittedEntries(p, disk, pending)
    ensures CommittedRows(p, disk, pending.snap, pending.drafts, pending.ends) == CommittedEntries(p, disk, pending)
  {
    assert WalkedRows(p) == p.episodes.entries;
  }

  lemma CommittedIsTiled(disk: Disk, snap: Snap, ranges: seq<Range>, ends: seq<int>, all: seq<Entry>)
    requires ends != [] && IsNumbered(all)
    requires RangesOf(all) == ranges + BatchRanges(snap.rel, snap.start, ends)
    requires IsTiling(disk.sources, RangesOf(all))
    ensures IsTiled(CommittedProject(all, disk, snap, ends), disk.sources)
  {
    LastOfBatch(all, snap, ranges, ends);
  }

  lemma LastOfBatch(all: seq<Entry>, snap: Snap, ranges: seq<Range>, ends: seq<int>)
    requires ends != [] && IsNumbered(all)
    requires RangesOf(all) == ranges + BatchRanges(snap.rel, snap.start, ends)
    ensures all != [] && Coords(all[|all| - 1]).Some?
    ensures LastRange(all).rel == snap.rel && LastRange(all).end == snap.start + ends[|ends| - 1]
  {
    var last := |ends| - 1;
    assert |all| == |RangesOf(all)| == |ranges| + |ends|;
    assert IsRow(all[|all| - 1], |all|);
    assert RangesOf(all)[|all| - 1] == BatchRange(snap.rel, snap.start, ends, last);
  }

  lemma StartIsInSources(p: Project, sources: seq<SourceDoc>)
    requires DistinctRels(sources) && IsTiled(p, sources) && EffectiveStart(p, sources).Some?
    ensures var start := EffectiveStart(p, sources).value;
            0 <= Idx(sources, start.rel) && 0 <= start.offset <= |TextAt(sources, start.rel)|
  {
    TiledStart(p, sources);
    if p.episodes.entries != [] {
      assert InBounds(sources, RangesOf(p.episodes.entries)[|p.episodes.entries| - 1]);
    } else {
      IndexOfAt(sources, 0);
    }
  }

  lemma TiledRowsInBounds(entries: seq<Entry>, sources: seq<SourceDoc>)
    requires IsNumbered(entries) && IsTiling(sources, RangesOf(entries))
    ensures forall i | 0 <= i < |entries| :: Coords(entries[i]).Some? && InBounds(sources, Coords(entries[i]).value)
  {
    forall i | 0 <= i < |entries|
      ensures Coords(entries[i]).Some? && InBounds(sources, Coords(entries[i]).value)
    {
      assert IsRow(entries[i], i + 1);
      assert InBounds(sources, RangesOf(entries)[i]);
    }
  }

  lemma CommitWrites(disk: Disk, snap: Snap, all: seq<Entry>)
    requires IsNumbered(all) && IsTiling(disk.sources, RangesOf(all))
    requires snap.text == TextAt(disk.sources, snap.rel)
    ensures Written(disk, map[snap.rel := snap.text], all).Some?
    ensures !IsReconciled(disk, map[snap.rel := snap.text], all, None)
  {
    TiledRowsInBounds(all, disk.sources);
    WrittenInSync(disk, map[snap.rel := snap.text], all);
  }

  lemma SweptStaysInSync(disk: Disk, cache: map<string, string>, all: seq<Entry>, files: Files)
    requires IsNumbered(all) && IsTiling(disk.sources, RangesOf(all))
    requires forall rel | rel in cache && 0 <= Idx(disk.sources, rel) :: cache[rel] == TextAt(disk.sources, rel)
    requires IsReconciled(disk, cache, all, Some(files))
    ensures InSync(files, all, disk.sources)
  {
    TiledRowsInBounds(all, disk.sources);
    WrittenInSync(disk, cache, all);
    NumberedOrder(all);
    var written := Written(disk, cache, all).value;
    forall i | 0 <= i < |all| ensures IsFiled(files, disk.sources, all[i], i + 1) {
      assert IsFiled(written, disk.sources, all[i], i + 1);
      SweepSpares(written, KnownNums(all), disk.stuck, files, i + 1);
    }
  }

  lemma SweepSpares(files: Files, keep: set<int>, stuck: set<string>, swept: Files, num: nat)
    requires IsSwept(files, keep, stuck, swept) && num in keep && CanonicalName(num) in files
    ensures CanonicalName(num) in swept && swept[CanonicalName(num)] == files[CanonicalName(num)]
  {
    assert EpisodeNumber(CanonicalName(num)) == Some(num);
    RemainingIsNoEpisode();
  }

  /**
   The optimistic check is enough: whenever a commit succeeds, a snapshot taken at that very moment, with the same
   window setting, would have been the one the call brought along.
   */
  lemma CommitIsAtomic(
    p: Project, before: Disk, disk: Disk, windowChars: int, pending: Pending, r: Result<Committed, PlanError>)
    requires DistinctRels(disk.sources) && windowChars >= 1
    requires IsSnapOf(disk.sources, before, windowChars, pending.snap) && |pending.drafts| == |pending.ends| > 0
    requires IsCommit(p, disk, pending.snap, pending.drafts, pending.ends, r) && r.Ok?
    ensures IsOutlook(p, disk, windowChars, Ok(Window(pending.snap)))
  {
    var healed :| IsRegistered(p, disk, healed)
                  && IsCommitOfHealed(healed, disk, pending.snap, pending.drafts, pending.ends, r);
    DoneIfOk(healed, disk, pending, r);
    PassedChecks(healed, disk, pending.snap);
    SameSnapNow(before, disk, windowChars, pending.snap);
    OutlookAfterChecks(healed, disk, windowChars, pending.snap);
  }

  lemma PassedChecks(healed: Project, disk: Disk, snap: Snap)
    requires Refusal(healed, disk, snap) == None
    ensures !ChangedSince(snap.used, disk.sources)
  {
  }

  lemma OutlookAfterChecks(healed: Project, disk: Disk, windowChars: int, snap: Snap)
    requires Refusal(healed, disk, snap) == None
    requires windowChars >= 1 && IsSnapOf(disk.sources, disk, windowChars, snap)
    ensures IsOutlookOfHealed(healed, disk, windowChars, Ok(Window(snap)))
  {
  }

  /** The file a snapshot starts in is one of the candidate sources when the commit finds its digest there. */
  lemma SameSnapNow(before: Disk, disk: Disk, windowChars: int, snap: Snap)
    requires windowChars >= 1 && IsSnapOf(disk.sources, before, windowChars, snap)
    requires !ChangedSince(snap.used, disk.sources)
    ensures IsSnapOf(disk.sources, disk, windowChars, snap)
  {
    assert snap.startRef.rel in snap.used;
    assert TextOf(disk.sources, snap.startRef.rel).Some?;
    SnapOfAnyDisk(disk.sources, before, disk, windowChars, snap);
  }

  /** A plan call that nothing comes in between of is never refused at its commit. */
  lemma UndisturbedCommitSucceeds(
    p: Project, disk: Disk, windowChars: int, pending: Pending, normalize: string -> string,
    r: Result<Committed, PlanError>)
    requires DistinctRels(disk.sources) && IsTiled(p, disk.sources) && windowChars >= 1
    requires IsOutlook(p, disk, windowChars, Ok(Window(pending.snap))) && |pending.drafts| == |pending.ends| > 0
    requires IsResolution(pending.snap.window, Anchors(pending.drafts), pending.snap.final, normalize, pending.ends)
    requires IsCommit(p, disk, pending.snap, pending.drafts, pending.ends, r)
    ensures r.Ok?
  {
    var seen :| IsRegistered(p, disk, seen) && IsOutlookOfHealed(seen, disk, windowChars, Ok(Window(pending.snap)));
    TiledRegistration(p, disk, seen);
    var healed :| IsRegistered(p, disk, healed)
                  && IsCommitOfHealed(healed, disk, pending.snap, pending.drafts, pending.ends, r);
    NumberedOrder(p.episodes.entries);
    RegistrationIsIdle(p, disk, healed);
    NotRefused(p, disk, windowChars, pending.snap);
    assert IsSnapOf(disk.sources, disk, windowChars, pending.snap);
    CheckedCommit(p, disk, pending, normalize, r);
  }

  /** What a snapshot has seen passes the commit's checks as long as nothing changes. */
  lemma NotRefused(p: Project, disk: Disk, windowChars: int, snap: Snap)
    requires DistinctRels(disk.sources) && IsTiled(p, disk.sources) && windowChars >= 1
    requires IsOutlookOfHealed(p, disk, windowChars, Ok(Window(snap)))
    ensures Refusal(p, disk, snap) == None
    ensures IsSnapOf(disk.sources, disk, windowChars, snap)
  {
    StartIsInSources(p, disk.sources);
    var start := EffectiveStart(p, disk.sources).value;
    assert OutlookFrom(disk, start, windowChars) == Ok(Window(snap));
    SnapUsesSources(disk, start, windowChars, snap);
  }

  lemma SnapUsesSources(disk: Disk, start: Place, windowChars: int, snap: Snap)
    requires windowChars >= 1 && OutlookFrom(disk, start, windowChars) == Ok(Window(snap))
    requires 0 <= Idx(disk.sources, start.rel)
    ensures snap.startRef == start && !ChangedSince(snap.used, disk.sources)
  {
  }

  /** Where a successful commit ends, and where it went on from. */
  lemma CommittedEnd(
    p: Project, disk: Disk, pending: Pending, normalize: string -> string, r: Result<Committed, PlanError>)
    requires DistinctRels(disk.sources) && IsTiled(p, disk.sources)
    requires IsPending(pending, disk.sources, normalize)
    requires IsCommit(p, disk, pending.snap, pending.drafts, pending.ends, r) && r.Ok?
    ensures IsTiled(r.value.project, disk.sources) && r.value.project.episodes.entries != []
    ensures LastRange(r.value.project.episodes.entries).rel == pending.snap.rel
    ensures LastRange(r.value.project.episodes.entries).end ==
            pending.snap.start + pending.ends[|pending.ends| - 1] > pending.snap.start
    ensures EffectiveStart(p, disk.sources) == Some(pending.snap.startRef)
    ensures r.value.exhausted == IsLastBatch(disk.sources, pending.snap, pending.ends)
    ensures 0 <= Idx(disk.sources, pending.snap.rel) && pending.snap.text == TextAt(disk.sources, pending.snap.rel)
    ensures Continues(disk.sources, RangesOf(p.episodes.entries), pending.snap.rel, pending.snap.start)
  {
    CommitKeepsTiling(p, disk, pending, normalize, r);
    BatchContinues(p, disk, pending, normalize);
    CursorOfTiled(r.value.project, disk.sources);
  }

  lemma DoneIfOk(healed: Project, disk: Disk, pending: Pending, r: Result<Committed, PlanError>)
    requires |pending.drafts| == |pending.ends| > 0
    requires IsCommitOfHealed(healed, disk, pending.snap, pending.drafts, pending.ends, r) && r.Ok?
    ensures Refusal(healed, disk, pending.snap) == None
    ensures IsDone(healed, disk, pending.snap, pending.drafts, pending.ends, r.value)
  {
  }

  lemma CursorOfTiled(p: Project, sources: seq<SourceDoc>)
    requires IsTiled(p, sources) && p.cursor != NoCursor
    ensures p.episodes.entries != [] && p.cursor == CursorAfter(p.episodes.entries)
  {
    var entries := p.episodes.entries;
    assert entries != [];
    assert IsRow(entries[|entries| - 1], |entries|);
  }

  /** Every successful commit moves the place where planning continues forward in reading order. */
  lemma CommitAdvances(
    p: Project, disk: Disk, pending: Pending, normalize: string -> string, r: Result<Committed, PlanError>)
    requires DistinctRels(disk.sources) && IsTiled(p, disk.sources)
    requires IsPending(pending, disk.sources, normalize)
    requires IsCommit(p, disk, pending.snap, pending.drafts, pending.ends, r) && r.Ok?
    ensures var from, to := EffectiveStart(p, disk.sources), EffectiveStart(r.value.project, disk.sources);
            && from.Some? && to.Some?
            && Tiling.Before(Idx(disk.sources, from.value.rel), from.value.offset,
                             Idx(disk.sources, to.value.rel), to.value.offset)
  {
    CommittedEnd(p, disk, pending, normalize, r);
    TiledStart(p, disk.sources);
    TiledStart(r.value.project, disk.sources);
    EndIsFurther(disk.sources, p.episodes.entries, pending.snap.rel, pending.snap.start);
  }

  /** What continues a tiling lies at or after its end, or the top of the first source. */
  lemma EndIsFurther(sources: seq<SourceDoc>, entries: seq<Entry>, rel: string, start: int)
    requires DistinctRels(sources) && IsNumbered(entries) && IsTiling(sources, RangesOf(entries))
    requires Continues(sources, RangesOf(entries), rel, start)
    ensures entries == [] ==> sources != [] && start == 0 && 0 == Idx(sources, sources[0].rel) <= Idx(sources, rel)
    ensures entries != [] ==>
              var last := LastRange(entries);
              || (rel == last.rel && start == last.end)
              || Idx(sources, last.rel) < Idx(sources, rel)
  {
    if entries != [] {
      assert IsRow(entries[|entries| - 1], |entries|);
      assert LastRange(entries) == RangesOf(entries)[|entries| - 1];
    } else {
      IndexOfAt(sources, 0);
    }
  }
}
