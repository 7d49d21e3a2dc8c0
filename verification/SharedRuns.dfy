/**
 Runs in which the rest of the system takes part: others store, edit, move and delete rows, and source files are added.
 What goes wrong for planning then, and only then.
 */
module SharedRuns {
  import opened Wrappers
  import opened SourceText
  import opened Boundaries
  import opened EpisodeFiles
  import opened Ledger
  import opened Tiling
  import opened PlanSpec
  import opened LedgerInvariant
  import opened PlanLaws
  import opened EpisodeSource
  import opened Planner
  import opened ResetSpec
  import opened ResetLaws
  import opened NewSources
  import opened SharedLedger
  import opened SharedCommits
  import P = PlanRuns

  datatype Step =
    | Own(step: P.Step)
    | Edit(before: Entry, after: Entry)
    | Reorder
    | AddRow(row: Entry)
    | Heal
    | Delete(gone: Entry)
    | AddSource(at: nat, doc: SourceDoc)

  /** Someone else writes the list of episodes, under the project lock. */
  ghost predicate Rewrites(s: P.State, s': P.State, rows: multiset<Entry>)
  {
    && s.project.episodes.Listed? && s'.project.episodes.Listed?
    && s' == s.(project := s.project.(episodes := s'.project.episodes))
    && multiset(s'.project.episodes.entries) == rows
  }

  /** A new row has a number of its own and no range. */
  ghost predicate IsNewRow(p: Project, row: Entry)
  {
    && IsShaped(row) && row.range == NotMapping
    && NumOf(row).value !in KnownNums(Rows(p))
  }

  ghost predicate Next(normalize: string -> string, s: P.State, step: Step, s': P.State)
  {
    var rows := multiset(Rows(s.project));
    match step
    case Own(step) => !step.Annotate? && P.Next(normalize, s, step, s')
    case Edit(before, after) =>
      && before in Rows(s.project) && P.IsSameRow(before, after)
      && Rewrites(s, s', rows - multiset{before} + multiset{after})
    case Reorder => Rewrites(s, s', rows)
    case AddRow(row) => IsNewRow(s.project, row) && Rewrites(s, s', rows + multiset{row})
    case Heal => IsRegistered(s.project, s.disk, s'.project) && s' == s.(project := s'.project)
    case Delete(gone) => gone in Rows(s.project) && Rewrites(s, s', rows - multiset{gone})
    case AddSource(at, doc) =>
      && IsNew(s.disk.sources, at, doc)
      && s' == s.(disk := s.disk.(sources := Inserted(s.disk.sources, at, doc)))
  }

  /** A project nothing has been planned for; rows without ranges may be there. */
  ghost predicate IsInitial(s: P.State)
  {
    && s.project.episodes.Listed?
    && s.project.cursor == NoCursor && s.project.fingerprints == NoFingerprints
    && IsDistinct(s.project.episodes.entries)
    && (forall e | e in s.project.episodes.entries :: IsShaped(e) && e.range == NotMapping)
    && DistinctRels(s.disk.sources) && s.inFlight == {}
  }

  ghost predicate IsRun(normalize: string -> string, states: seq<P.State>, steps: seq<Step>)
  {
    && |states| == |steps| + 1
    && IsInitial(states[0])
    && forall i | 0 <= i < |steps| :: Next(normalize, states[i], steps[i], states[i + 1])
  }

  // ----- what holds at every moment

  /** The plan call's snapshot is of the sources as they were at some time. */
  ghost predicate IsInFlight(pending: Pending, sources: seq<SourceDoc>, normalize: string -> string)
  {
    exists before :: IsPendingWithin(pending, before, sources, normalize)
  }

  ghost predicate AreInFlight(pendings: set<Pending>, sources: seq<SourceDoc>, normalize: string -> string)
  {
    forall pending | pending in pendings :: IsInFlight(pending, sources, normalize)
  }

  ghost predicate IsSound(normalize: string -> string, s: P.State)
  {
    && DistinctRels(s.disk.sources)
    && IsOrderly(s.project, s.disk.sources)
    && AreInFlight(s.inFlight, s.disk.sources, normalize)
  }

  lemma InitialIsSound(normalize: string -> string, s: P.State)
    requires IsInitial(s)
    ensures IsSound(normalize, s)
  {
    assert forall m :: m !in Marks(s.project.episodes.entries);
  }

  // ----- resets

  lemma {:induction false} RetainedCounts(entries: seq<Entry>, from: int, e: Entry)
    ensures multiset(Retained(entries, from))[e] == if IsBelow(e, from) then multiset(entries)[e] else 0
  {
    if entries != [] {
      var n := |entries| - 1;
      RetainedCounts(entries[..n], from, e);
      assert entries == entries[..n] + [entries[n]];
    }
  }

  lemma RetainedMembers(entries: seq<Entry>, from: int)
    requires IsDistinct(entries)
    ensures forall e :: e in Retained(entries, from) <==> e in entries && IsBelow(e, from)
    ensures IsDistinct(Retained(entries, from))
  {
    var kept := Retained(entries, from);
    forall e
      ensures e in kept <==> e in entries && IsBelow(e, from)
      ensures e in kept ==> multiset(kept)[e] == multiset(entries)[e]
    {
      RetainedCounts(entries, from, e);
      assert e in kept <==> e in multiset(kept);
      assert e in entries <==> e in multiset(entries);
    }
  }

  /** The ranges kept are those of the episodes below. */
  lemma RetainedMarks(entries: seq<Entry>, from: int, m: Mark)
    requires IsDistinct(entries) && forall e | e in entries :: IsShaped(e)
    ensures m in Marks(Retained(entries, from)) <==> m in Marks(entries) && m.num < from
  {
    RetainedMembers(entries, from);
  }

  /** The validator's ranges are the episodes'. */
  lemma KeptMark(p: Project, sources: seq<SourceDoc>, from: int, ranges: seq<Range>, k: nat)
    requires IsOrderly(p, sources) && CanKeep(p, sources, from, ranges) && k < |ranges|
    ensures Mark(k + 1, ranges[k]) in Marks(p.episodes.entries)
  {
    var entries := p.episodes.entries;
    assert HasRange(entries, k + 1, ranges[k]);
    var i :| 0 <= i < |entries| && NumOf(entries[i]) == Some(k + 1) && Coords(entries[i]) == Some(ranges[k]);
    assert entries[i] in entries && MarkOf(entries[i]) == Mark(k + 1, ranges[k]);
  }

  lemma KeptIsBehind(p: Project, sources: seq<SourceDoc>, from: int, ranges: seq<Range>, m: Mark)
    requires IsOrderly(p, sources) && CanKeep(p, sources, from, ranges) && from > 1
    requires m in Marks(p.episodes.entries) && m.num < from
    ensures IsPlace(sources, LastPlace(ranges)) && IsBehind(sources, m.range, LastPlace(ranges))
  {
    KeptMark(p, sources, from, ranges, from - 2);
    var last := Mark(from - 1, ranges[from - 2]);
    assert InBounds(sources, last.range);
    assert m.num < last.num ==> IsBehind(sources, m.range, StartOf(last.range));
  }

  lemma LastIsPlace(sources: seq<SourceDoc>, ranges: seq<Range>)
    requires IsTiling(sources, ranges) && ranges != []
    ensures IsPlace(sources, LastPlace(ranges))
  {
    assert InBounds(sources, ranges[|ranges| - 1]);
  }

  /** A partial reset has kept the episodes before `from`, which have these ranges. */
  ghost predicate IsCutBack(p: Project, sources: seq<SourceDoc>, from: int, ranges: seq<Range>, p': Project)
  {
    from > 1 && CanKeep(p, sources, from, ranges) && p' == ResetProject(p, from, LastPlace(ranges))
  }

  lemma ResetCutsBack(p: Project, disk: Disk, from: int, allowed: set<int>, p': Project, disk': Disk)
    requires IsReset(p, disk, from, allowed, p', disk')
    ensures disk'.sources == disk.sources
    ensures p' == Project(Listed([]), NoCursor, NoFingerprints)
            || exists ranges :: IsCutBack(p, disk.sources, from, ranges, p')
  {
    var cursor :| IsResetCursor(p, disk.sources, from, cursor) && p' == ResetProject(p, from, cursor);
    if from != 1 {
      var ranges :| CanKeep(p, disk.sources, from, ranges) && cursor == LastPlace(ranges);
      assert IsCutBack(p, disk.sources, from, ranges, p');
    }
  }

  lemma ResetStaysOrderly(p: Project, disk: Disk, from: int, allowed: set<int>, p': Project, disk': Disk)
    requires IsOrderly(p, disk.sources) && IsReset(p, disk, from, allowed, p', disk')
    ensures IsOrderly(p', disk'.sources) && disk'.sources == disk.sources
  {
    ResetCutsBack(p, disk, from, allowed, p', disk');
    if p' == Project(Listed([]), NoCursor, NoFingerprints) {
      EmptyIsOrderly(disk.sources);
    } else {
      var ranges :| IsCutBack(p, disk.sources, from, ranges, p');
      KeptIsOrderly(p, disk.sources, from, ranges, p');
    }
  }

  lemma EmptyIsOrderly(sources: seq<SourceDoc>)
    ensures IsOrderly(Project(Listed([]), NoCursor, NoFingerprints), sources)
  {
    assert forall m :: m !in Marks([]);
  }

  /** The rows kept, sorted. */
  lemma KeptRows(entries: seq<Entry>, from: int)
    requires IsDistinct(entries) && forall e | e in entries :: IsShaped(e)
    ensures var kept := SortByNum(Retained(entries, from));
            && IsDistinct(kept) && (forall e | e in kept :: IsShaped(e))
            && forall m :: m in Marks(kept) <==> m in Marks(entries) && m.num < from
  {
    var kept := Retained(entries, from);
    RetainedMembers(entries, from);
    SortedInOrder(kept);
    SameRowsSameMarks(SortByNum(kept), kept);
    forall m ensures m in Marks(kept) <==> m in Marks(entries) && m.num < from {
      RetainedMarks(entries, from, m);
    }
  }

  /** Fewer ranges with a cursor of their own are in order as well. */
  lemma MovedStaysOrderly(p: Project, p': Project, sources: seq<SourceDoc>, place: Place)
    requires IsOrderly(p, sources) && p'.episodes.Listed? && p'.fingerprints == p.fingerprints
    requires (forall e | e in p'.episodes.entries :: IsShaped(e)) && IsDistinct(p'.episodes.entries)
    requires p'.cursor == CursorAt(Path(place.rel), Int(place.offset)) && IsPlace(sources, place)
    requires forall m | m in Marks(p'.episodes.entries) ::
               m in Marks(p.episodes.entries) && IsBehind(sources, m.range, place)
    ensures IsOrderly(p', sources)
  {
  }

  lemma KeptIsOrderly(p: Project, sources: seq<SourceDoc>, from: int, ranges: seq<Range>, p': Project)
    requires IsOrderly(p, sources) && IsCutBack(p, sources, from, ranges, p')
    ensures IsOrderly(p', sources)
  {
    KeptRows(p.episodes.entries, from);
    LastIsPlace(sources, ranges);
    forall m | m in Marks(p'.episodes.entries)
      ensures m in Marks(p.episodes.entries) && IsBehind(sources, m.range, LastPlace(ranges))
    {
      KeptIsBehind(p, sources, from, ranges, m);
    }
    MovedStaysOrderly(p, p', sources, LastPlace(ranges));
  }

  /** After a reset that goes through nothing is skipped. */
  lemma ResetSkipsNothing(
    p: Project, disk: Disk, from: int, allowed: set<int>, p': Project, disk': Disk, rel: string, offset: int)
    requires DistinctRels(disk.sources) && IsOrderly(p, disk.sources) && IsReset(p, disk, from, allowed, p', disk')
    ensures p'.episodes.Listed? && !IsSkipped(p', disk'.sources, rel, offset)
  {
    ResetCutsBack(p, disk, from, allowed, p', disk');
    if p' != Project(Listed([]), NoCursor, NoFingerprints) {
      var ranges :| IsCutBack(p, disk.sources, from, ranges, p');
      KeptAreTaken(p, disk.sources, from, ranges, p', rel, offset);
    }
  }

  lemma KeptTakes(
    p: Project, sources: seq<SourceDoc>, from: int, ranges: seq<Range>, p': Project, k: nat, rel: string, offset: int)
    requires IsOrderly(p, sources) && IsCutBack(p, sources, from, ranges, p')
    requires k < |ranges| && Holds(ranges[k], rel, offset)
    ensures IsTaken(Marks(p'.episodes.entries), rel, offset)
  {
    KeptMark(p, sources, from, ranges, k);
    KeptRows(p.episodes.entries, from);
    assert Holds(Mark(k + 1, ranges[k]).range, rel, offset);
  }

  /** The kept ranges take everything before their end. */
  lemma KeptAreTaken(
    p: Project, sources: seq<SourceDoc>, from: int, ranges: seq<Range>, p': Project, rel: string, offset: int)
    requires DistinctRels(sources) && IsOrderly(p, sources) && IsCutBack(p, sources, from, ranges, p')
    ensures p'.episodes.Listed? && CursorPlace(p'.cursor) == Some(LastPlace(ranges))
    ensures IsText(sources, rel, offset) && IsBefore(sources, rel, offset, LastPlace(ranges)) ==>
              IsTaken(Marks(p'.episodes.entries), rel, offset)
  {
    LastIsPlace(sources, ranges);
    if IsText(sources, rel, offset) && IsBefore(sources, rel, offset, LastPlace(ranges)) {
      var k := HolderOf(sources, ranges, rel, offset);
      KeptTakes(p, sources, from, ranges, p', k, rel, offset);
    }
  }

  lemma HolderOf(sources: seq<SourceDoc>, ranges: seq<Range>, rel: string, offset: int) returns (k: nat)
    requires DistinctRels(sources) && IsTiling(sources, ranges) && ranges != []
    requires IsText(sources, rel, offset) && IsBefore(sources, rel, offset, LastPlace(ranges))
    ensures k < |ranges| && Holds(ranges[k], rel, offset)
  {
    var i := Idx(sources, rel);
    CoveredUpTo(sources, ranges, i, offset);
    k :| k < |ranges| && Covers(sources, ranges[k], i, offset);
    assert InBounds(sources, ranges[k]);
  }

  // ----- a source more

  lemma BehindAsWell(sources: seq<SourceDoc>, k: nat, doc: SourceDoc, r: Range, place: Place)
    requires IsNew(sources, k, doc) && 0 <= Idx(sources, r.rel) && 0 <= Idx(sources, place.rel)
    requires IsBehind(sources, r, place)
    ensures IsBehind(Inserted(sources, k, doc), r, place)
  {
    IdxShifts(sources, k, doc, r.rel);
    IdxShifts(sources, k, doc, place.rel);
  }

  lemma OrderedAsWell(sources: seq<SourceDoc>, k: nat, doc: SourceDoc, marks: set<Mark>)
    requires IsNew(sources, k, doc) && AreOrdered(sources, marks)
    ensures AreOrdered(Inserted(sources, k, doc), marks)
  {
    forall m | m in marks ensures InBounds(Inserted(sources, k, doc), m.range) {
      IdxShifts(sources, k, doc, m.range.rel);
    }
    forall a, b | a in marks && b in marks && a.num < b.num
      ensures IsBehind(Inserted(sources, k, doc), a.range, StartOf(b.range))
    {
      BehindAsWell(sources, k, doc, a.range, StartOf(b.range));
    }
  }

  lemma AheadAsWell(sources: seq<SourceDoc>, k: nat, doc: SourceDoc, cursor: CursorValue, marks: set<Mark>)
    requires IsNew(sources, k, doc) && AreOrdered(sources, marks) && IsAhead(sources, cursor, marks)
    ensures IsAhead(Inserted(sources, k, doc), cursor, marks)
  {
    if CursorPlace(cursor).Some? {
      var front := CursorPlace(cursor).value;
      IdxShifts(sources, k, doc, front.rel);
      forall m | m in marks ensures IsBehind(Inserted(sources, k, doc), m.range, front) {
        assert InBounds(sources, m.range);
        BehindAsWell(sources, k, doc, m.range, front);
      }
    }
  }

  lemma AddedStaysOrderly(p: Project, sources: seq<SourceDoc>, k: nat, doc: SourceDoc)
    requires IsNew(sources, k, doc) && IsOrderly(p, sources)
    ensures IsOrderly(p, Inserted(sources, k, doc))
  {
    OrderedAsWell(sources, k, doc, Marks(p.episodes.entries));
    AheadAsWell(sources, k, doc, p.cursor, Marks(p.episodes.entries));
    MatchesAsWell(sources, k, doc, p.fingerprints);
  }

  lemma WithinAsWell(before: seq<SourceDoc>, sources: seq<SourceDoc>, k: nat, doc: SourceDoc)
    requires IsNew(sources, k, doc) && IsWithin(before, sources)
    ensures IsWithin(before, Inserted(sources, k, doc))
  {
    forall i | 0 <= i < |before|
      ensures IsFound(Inserted(sources, k, doc), before[i])
      ensures Idx(Inserted(sources, k, doc), before[i].rel) == Shift(Idx(sources, before[i].rel), k)
    {
      assert IsFound(sources, before[i]);
      IdxShifts(sources, k, doc, before[i].rel);
    }
  }

  lemma AllWithin(sources: seq<SourceDoc>)
    requires DistinctRels(sources)
    ensures IsWithin(sources, sources)
  {
    forall i | 0 <= i < |sources| ensures IsFound(sources, sources[i]) && Idx(sources, sources[i].rel) == i {
      IndexOfAt(sources, i);
    }
  }

  lemma InFlightAsWell(
    pendings: set<Pending>, sources: seq<SourceDoc>, k: nat, doc: SourceDoc, normalize: string -> string)
    requires IsNew(sources, k, doc) && AreInFlight(pendings, sources, normalize)
    ensures AreInFlight(pendings, Inserted(sources, k, doc), normalize)
  {
    forall pending | pending in pendings ensures IsInFlight(pending, Inserted(sources, k, doc), normalize) {
      var before :| IsPendingWithin(pending, before, sources, normalize);
      WithinAsWell(before, sources, k, doc);
      assert IsPendingWithin(pending, before, Inserted(sources, k, doc), normalize);
    }
  }

  // ----- one step

  lemma BegunIsInFlight(normalize: string -> string, s: P.State, s': P.State, windowChars: int, pending: Pending)
    requires IsSound(normalize, s) && P.Begins(normalize, s, s', windowChars, pending)
    ensures AreInFlight(s'.inFlight, s.disk.sources, normalize)
  {
    P.BeginIsPending(s.disk.sources, normalize, s, s', windowChars, pending);
    AllWithin(s.disk.sources);
    assert IsPendingWithin(pending, s.disk.sources, s.disk.sources, normalize);
    forall other | other in s'.inFlight ensures IsInFlight(other, s.disk.sources, normalize) {
    }
  }

  lemma CommitIsSound(
    normalize: string -> string, s: P.State, s': P.State, batch: Pending, r: Result<Committed, PlanError>)
    requires IsSound(normalize, s) && P.Commits(s, s', batch, r)
    ensures IsOrderly(s'.project, s'.disk.sources) && s'.disk.sources == s.disk.sources
  {
    assert IsInFlight(batch, s.disk.sources, normalize);
    var before :| IsPendingWithin(batch, before, s.disk.sources, normalize);
    CommitStaysOrderly(s.project, before, s.disk, batch, normalize, r);
    if r.Ok? {
      var next :| IsBatchAdded(s.project, s.disk.sources, batch, next, r.value.project);
    }
  }

  lemma OwnIsSound(normalize: string -> string, s: P.State, step: P.Step, s': P.State)
    requires IsSound(normalize, s) && !step.Annotate? && P.Next(normalize, s, step, s')
    ensures IsSound(normalize, s')
  {
    match step
    case Begin(windowChars, pending) => BegunIsInFlight(normalize, s, s', windowChars, pending);
    case CommitBatch(batch, result) => CommitIsSound(normalize, s, s', batch, result);
    case FailCommit(failed, trouble) =>
    case Backfill(used) => CurrentNeverMismatches(s.disk.sources);
    case DoReset(from, allowed) => ResetStaysOrderly(s.project, s.disk, from, allowed, s'.project, s'.disk);
    case FailReset(from, budget) =>
    case Disturb =>
    case Annotate =>
  }

  /** Well-formed rows with the same ranges but these. */
  ghost predicate AreRewritten(entries: seq<Entry>, after: seq<Entry>, lost: set<Mark>)
  {
    && IsDistinct(after) && (forall e | e in after :: IsShaped(e))
    && Marks(after) == Marks(entries) - lost
  }

  lemma RowAdded(entries: seq<Entry>, row: Entry, after: seq<Entry>)
    requires IsDistinct(entries) && forall e | e in entries :: IsShaped(e)
    requires IsShaped(row) && row.range == NotMapping && NumOf(row).value !in KnownNums(entries)
    requires multiset(after) == multiset(entries) + multiset{row}
    ensures AreRewritten(entries, after, {})
  {
    DistinctAppend(entries, row);
    MarksAppend(entries, row);
    assert multiset(entries + [row]) == multiset(entries) + multiset{row};
    SameRowsSameMarks(entries + [row], after);
  }

  lemma RowEdited(entries: seq<Entry>, e: Entry, e': Entry, after: seq<Entry>)
    requires IsDistinct(entries) && (forall x | x in entries :: IsShaped(x)) && e in entries && P.IsSameRow(e, e')
    requires multiset(after) == multiset(entries) - multiset{e} + multiset{e'}
    ensures AreRewritten(entries, after, {})
  {
    RowRewritten(entries, e, e', after);
  }

  lemma RowsMoved(entries: seq<Entry>, after: seq<Entry>)
    requires IsDistinct(entries) && (forall e | e in entries :: IsShaped(e)) && multiset(after) == multiset(entries)
    ensures AreRewritten(entries, after, {})
  {
    SameRowsSameMarks(entries, after);
  }

  lemma RowDeleted(entries: seq<Entry>, e: Entry, after: seq<Entry>)
    requires IsDistinct(entries) && (forall x | x in entries :: IsShaped(x)) && e in entries
    requires multiset(after) == multiset(entries) - multiset{e}
    ensures AreRewritten(entries, after, Lost(Delete(e)))
  {
    RowRemoved(entries, e, after);
  }

  /** The range a step takes away, if any. */
  function Lost(step: Step): set<Mark>
  {
    if step.Delete? && IsMarked(step.gone) then {MarkOf(step.gone)} else {}
  }

  /** What others do to the rows takes ranges away at most. */
  lemma RewrittenRows(normalize: string -> string, s: P.State, step: Step, s': P.State)
    requires IsSound(normalize, s) && Next(normalize, s, step, s')
    requires step.Edit? || step.Reorder? || step.AddRow? || step.Delete?
    ensures s'.project.episodes.Listed?
    ensures AreRewritten(s.project.episodes.entries, s'.project.episodes.entries, Lost(step))
  {
    var entries, after := s.project.episodes.entries, s'.project.episodes.entries;
    match step
    case Edit(e, e') => RowEdited(entries, e, e', after);
    case Reorder => RowsMoved(entries, after);
    case AddRow(row) => RowAdded(entries, row, after);
    case Delete(gone) => RowDeleted(entries, gone, after);
    case _ =>
  }

  lemma StepIsSound(normalize: string -> string, s: P.State, step: Step, s': P.State)
    requires IsSound(normalize, s) && Next(normalize, s, step, s')
    ensures IsSound(normalize, s')
  {
    match step
    case Own(step) => OwnIsSound(normalize, s, step, s');
    case Heal => RegisteredStaysOrderly(s.project, s.disk, s'.project);
    case AddSource(at, doc) =>
      InsertedIsDistinct(s.disk.sources, at, doc);
      AddedStaysOrderly(s.project, s.disk.sources, at, doc);
      InFlightAsWell(s.inFlight, s.disk.sources, at, doc, normalize);
    case _ =>
      RewrittenRows(normalize, s, step, s');
      FewerMarksStayOrderly(s.project, s'.project, s.disk.sources);
  }

  /**
   In every run, whoever writes in between: no two rows share a number, episodes follow each other in the sources in the
   order of their numbers and without overlap, and the cursor is a place in the sources with all of them behind it.
   */
  lemma {:induction false} RunsStayOrderly(
    normalize: string -> string, states: seq<P.State>, steps: seq<Step>, i: nat)
    requires IsRun(normalize, states, steps) && i < |states|
    ensures IsSound(normalize, states[i])
  {
    if i == 0 {
      InitialIsSound(normalize, states[0]);
    } else {
      RunsStayOrderly(normalize, states, steps, i - 1);
      assert Next(normalize, states[i - 1], steps[i - 1], states[i - 1 + 1]);
      StepIsSound(normalize, states[i - 1], steps[i - 1], states[i]);
    }
  }

  // ----- what stops a plan call, and what its report of the end means

  /** Every character that is not whitespace is in an episode, or has been skipped. */
  ghost predicate IsPlannedOrSkipped(p: Project, sources: seq<SourceDoc>)
    requires p.episodes.Listed?
  {
    forall rel, offset | IsText(sources, rel, offset) ::
      IsTaken(Marks(p.episodes.entries), rel, offset) <==> !IsSkipped(p, sources, rel, offset)
  }

  lemma NothingLeftIsBefore(sources: seq<SourceDoc>, place: Place, rel: string, offset: int)
    requires NothingLeft(sources, place.rel, place.offset) && IsText(sources, rel, offset)
    ensures IsBefore(sources, rel, offset, place)
  {
    var i := Idx(sources, rel);
    if i == Idx(sources, place.rel) {
      NonSpaceBefore(sources[i].text, place.offset, offset);
    }
  }

  /** With nothing left after the place where planning goes on, what is in no episode has been skipped. */
  lemma NothingLeftIsPlanned(p: Project, sources: seq<SourceDoc>)
    requires IsOrderly(p, sources) && EffectiveStart(p, sources).Some?
    requires NothingLeft(sources, EffectiveStart(p, sources).value.rel, EffectiveStart(p, sources).value.offset)
    ensures IsPlannedOrSkipped(p, sources)
  {
    StartIsCursor(p, sources);
    forall rel, offset | IsText(sources, rel, offset)
      ensures IsTaken(Marks(p.episodes.entries), rel, offset) <==> !IsSkipped(p, sources, rel, offset)
    {
      NothingLeftIsBefore(sources, EffectiveStart(p, sources).value, rel, offset);
    }
  }

  lemma OutlookOfOrderly(p: Project, disk: Disk, windowChars: int, r: Result<Outlook, PlanError>)
    requires DistinctRels(disk.sources) && IsOrderly(p, disk.sources)
    requires windowChars >= 1 && IsOutlook(p, disk, windowChars, r)
    ensures r == Err(MissingRange) <==> SomeLackRange(p.episodes.entries) || !NoOrphans(p.episodes.entries, disk.files)
    ensures r.Err? && r != Err(MissingRange) ==> r == Err(NoSources) && disk.sources == []
    ensures r.Ok? ==> disk.sources != []
    ensures r.Ok? && r.value.Exhausted? ==> IsPlannedOrSkipped(p, disk.sources)
  {
    var healed :| IsRegistered(p, disk, healed) && IsOutlookOfHealed(healed, disk, windowChars, r);
    GateIff(p, disk, healed);
    RegisteredStaysOrderly(p, disk, healed);
    StartIsCursor(p, disk.sources);
    StartIsCursor(healed, disk.sources);
    if !SomeLackRange(Rows(healed)) && EffectiveStart(healed, disk.sources).Some? {
      var start := EffectiveStart(healed, disk.sources).value;
      StartIsPlace(healed, disk.sources);
      GoesOnFrom(disk, start, windowChars);
      if r.value.Exhausted? {
        NothingLeftIsPlanned(p, disk.sources);
      }
    }
  }

  /**
   At every moment of every run a plan call is refused exactly when some row has no range or some numbered file no row,
   or else when there is no source. When it finds everything planned, what is in no episode has been skipped.
   */
  lemma PlanningStopsIff(
    normalize: string -> string, states: seq<P.State>, steps: seq<Step>, i: nat,
    windowChars: int, r: Result<Outlook, PlanError>)
    requires IsRun(normalize, states, steps) && i < |states| && windowChars >= 1
    requires IsOutlook(states[i].project, states[i].disk, windowChars, r)
    ensures states[i].project.episodes.Listed?
    ensures r == Err(MissingRange) <==> SomeLackRange(Rows(states[i].project))
                                        || !NoOrphans(Rows(states[i].project), states[i].disk.files)
    ensures r.Err? && r != Err(MissingRange) ==> r == Err(NoSources) && states[i].disk.sources == []
    ensures r.Ok? ==> states[i].disk.sources != []
    ensures r.Ok? && r.value.Exhausted? ==> IsPlannedOrSkipped(states[i].project, states[i].disk.sources)
  {
    RunsStayOrderly(normalize, states, steps, i);
    OutlookOfOrderly(states[i].project, states[i].disk, windowChars, r);
  }

  // ----- what is skipped

  /** A reset has gone through. */
  predicate GoesThrough(step: Step)
  {
    step.Own? && step.step.DoReset?
  }

  /**
   How a character comes to be skipped: the row that has it is deleted, its file is added before the cursor's, or a
   commit goes on behind it.
   */
  ghost predicate LetsGo(s: P.State, step: Step, s': P.State, rel: string, offset: int)
  {
    && IsText(s'.disk.sources, rel, offset)
    && match step
       case Delete(gone) => Coords(gone).Some? && Holds(Coords(gone).value, rel, offset)
       case AddSource(at, doc) => rel == doc.rel && IsPassed(s, at)
       case Own(CommitBatch(batch, Ok(_))) =>
         && !IsBefore(s.disk.sources, rel, offset, batch.snap.startRef)
         && IsBefore(s.disk.sources, rel, offset, Place(batch.snap.rel, batch.snap.start))
       case _ => false
  }

  /** Planning has got further than the place for a new file at position `k`. */
  ghost predicate IsPassed(s: P.State, k: nat)
  {
    CursorPlace(s.project.cursor).Some? && k <= Idx(s.disk.sources, CursorPlace(s.project.cursor).value.rel)
  }

  lemma AddedSkips(p: Project, sources: seq<SourceDoc>, k: nat, doc: SourceDoc, rel: string, offset: int)
    requires IsNew(sources, k, doc) && IsOrderly(p, sources)
    ensures var all := Inserted(sources, k, doc);
            IsSkipped(p, all, rel, offset) <==>
            || IsSkipped(p, sources, rel, offset)
            || (rel == doc.rel && IsText(all, rel, offset) && CursorPlace(p.cursor).Some?
                && k <= Idx(sources, CursorPlace(p.cursor).value.rel))
  {
    var all, marks := Inserted(sources, k, doc), Marks(p.episodes.entries);
    InsertedIsDistinct(sources, k, doc);
    if CursorPlace(p.cursor).Some? {
      var front := CursorPlace(p.cursor).value;
      IdxShifts(sources, k, doc, front.rel);
      if rel == doc.rel {
        forall m | m in marks ensures m.range.rel != rel {
          IdxShifts(sources, k, doc, m.range.rel);
        }
        assert Idx(sources, rel) < 0;
      } else {
        SameOtherwise(sources, k, doc, rel);
      }
    }
  }

  /** A file other than the new one is there exactly when it was before, with its text. */
  lemma SameOtherwise(sources: seq<SourceDoc>, k: nat, doc: SourceDoc, rel: string)
    requires IsNew(sources, k, doc) && rel != doc.rel
    ensures var all := Inserted(sources, k, doc);
            && (0 <= Idx(all, rel) <==> 0 <= Idx(sources, rel))
            && (0 <= Idx(sources, rel) ==>
                  Idx(all, rel) == Shift(Idx(sources, rel), k) && TextAt(all, rel) == TextAt(sources, rel))
  {
    if 0 <= Idx(sources, rel) {
      IdxShifts(sources, k, doc, rel);
    }
    if 0 <= Idx(Inserted(sources, k, doc), rel) {
      WasThere(sources, k, doc, Idx(Inserted(sources, k, doc), rel));
    }
  }

  lemma WasThere(sources: seq<SourceDoc>, k: nat, doc: SourceDoc, i: nat)
    requires k <= |sources| && i < |sources| + 1 && i != k
    ensures 0 <= Idx(sources, Inserted(sources, k, doc)[i].rel)
  {
    assert Inserted(sources, k, doc)[i] == sources[if i < k then i else i - 1];
  }

  /** Between the old cursor and the new one, the batch takes what comes after its start. */
  lemma BatchSkips(
    p: Project, sources: seq<SourceDoc>, before: seq<SourceDoc>, pending: Pending, p': Project,
    rel: string, offset: int)
    requires IsOrderly(p, sources) && pending.ends != [] && IsNext(p, sources, before, pending)
    requires AddsBatch(p, sources, pending, p')
    ensures p'.episodes.Listed?
    ensures IsSkipped(p', sources, rel, offset) <==>
            || IsSkipped(p, sources, rel, offset)
            || (IsText(sources, rel, offset) && !IsBefore(sources, rel, offset, pending.snap.startRef)
                && IsBefore(sources, rel, offset, Place(pending.snap.rel, pending.snap.start)))
  {
    var snap, ends := pending.snap, pending.ends;
    var next :| IsBatchAdded(p, sources, pending, next, p');
    if IsText(sources, rel, offset) {
      StartIsCursor(p, sources);
      BatchTakesIff(sources, next, snap.rel, snap.start, ends, rel, offset);
      TakenByEither(Marks(p.episodes.entries), BatchMarks(next, BatchRanges(snap.rel, snap.start, ends)), rel, offset);
      NoneTakenAhead(p, sources, rel, offset);
    }
  }

  lemma TakenByEither(a: set<Mark>, b: set<Mark>, rel: string, offset: int)
    ensures IsTaken(a + b, rel, offset) <==> IsTaken(a, rel, offset) || IsTaken(b, rel, offset)
  {
    if IsTaken(a, rel, offset) {
      var m :| m in a && Holds(m.range, rel, offset);
      assert m in a + b;
    }
    if IsTaken(b, rel, offset) {
      var m :| m in b && Holds(m.range, rel, offset);
      assert m in a + b;
    }
  }

  lemma BatchTakesIff(
    sources: seq<SourceDoc>, next: int, of: string, start: int, ends: seq<int>, rel: string, offset: int)
    requires 0 <= Idx(sources, of) && 0 <= start && IsBatch(ends, start, |TextAt(sources, of)|)
    ensures IsTaken(BatchMarks(next, BatchRanges(of, start, ends)), rel, offset) <==>
            rel == of && start <= offset < start + ends[|ends| - 1]
  {
    var marks := BatchMarks(next, BatchRanges(of, start, ends));
    if rel == of && start <= offset < start + ends[|ends| - 1] {
      BatchTakes(sources, next, of, start, ends, |ends| - 1, offset);
    }
    forall m | m in marks && Holds(m.range, rel, offset)
      ensures rel == of && start <= offset < start + ends[|ends| - 1]
    {
      BatchLies(sources, next, of, start, ends, m);
    }
  }

  /** What is in an episode comes before the place where planning goes on. */
  lemma NoneTakenAhead(p: Project, sources: seq<SourceDoc>, rel: string, offset: int)
    requires IsOrderly(p, sources) && EffectiveStart(p, sources).Some?
    ensures IsTaken(Marks(p.episodes.entries), rel, offset) ==>
              IsBefore(sources, rel, offset, EffectiveStart(p, sources).value)
  {
    StartIsPlace(p, sources);
    if IsTaken(Marks(p.episodes.entries), rel, offset) {
      var m :| m in Marks(p.episodes.entries) && Holds(m.range, rel, offset);
      TakenIsBefore(sources, m.range, EffectiveStart(p, sources).value, rel, offset);
    }
  }

  /** The step neither plans nor resets, and leaves rows, cursor and sources as they are. */
  predicate IsBystander(step: P.Step)
  {
    step.Begin? || step.FailCommit? || step.Backfill? || step.FailReset? || step.Disturb?
  }

  lemma BystanderSkips(normalize: string -> string, s: P.State, step: P.Step, s': P.State, rel: string, offset: int)
    requires IsSound(normalize, s) && IsBystander(step) && P.Next(normalize, s, step, s')
    ensures s'.project.episodes.Listed?
    ensures IsSkipped(s'.project, s'.disk.sources, rel, offset) <==>
            IsSkipped(s.project, s.disk.sources, rel, offset)
  {
  }

  lemma CommittedSkips(
    s: P.State, before: seq<SourceDoc>, batch: Pending, done: Committed, s': P.State, rel: string, offset: int)
    requires IsOrderly(s.project, s.disk.sources) && |batch.drafts| == |batch.ends| > 0
    requires IsCommitted(s.project, before, s.disk, batch, done)
    requires s'.project == done.project && s'.disk.sources == s.disk.sources
    ensures s'.project.episodes.Listed?
    ensures IsSkipped(s'.project, s'.disk.sources, rel, offset) <==>
            || IsSkipped(s.project, s.disk.sources, rel, offset)
            || LetsGo(s, Own(P.CommitBatch(batch, Ok(done))), s', rel, offset)
  {
    BatchSkips(s.project, s.disk.sources, before, batch, done.project, rel, offset);
  }

  /** The snapshot's sources are among those there are. */
  lemma CommitIsCommitted(
    normalize: string -> string, s: P.State, batch: Pending, r: Result<Committed, PlanError>, s': P.State)
    returns (before: seq<SourceDoc>)
    requires IsSound(normalize, s) && P.Commits(s, s', batch, r) && r.Ok?
    ensures IsCommitted(s.project, before, s.disk, batch, r.value)
  {
    assert IsInFlight(batch, s.disk.sources, normalize);
    before :| IsPendingWithin(batch, before, s.disk.sources, normalize);
    CommitStaysOrderly(s.project, before, s.disk, batch, normalize, r);
  }

  lemma CommitSkips(
    normalize: string -> string, s: P.State, batch: Pending, r: Result<Committed, PlanError>, s': P.State,
    rel: string, offset: int)
    requires IsSound(normalize, s) && P.Commits(s, s', batch, r)
    ensures s'.project.episodes.Listed?
    ensures IsSkipped(s'.project, s'.disk.sources, rel, offset) <==>
            || IsSkipped(s.project, s.disk.sources, rel, offset)
            || LetsGo(s, Own(P.CommitBatch(batch, r)), s', rel, offset)
  {
    if r.Ok? {
      var before := CommitIsCommitted(normalize, s, batch, r, s');
      CommittedSkips(s, before, batch, r.value, s', rel, offset);
    }
  }

  lemma OwnSkips(normalize: string -> string, s: P.State, step: P.Step, s': P.State, rel: string, offset: int)
    requires IsSound(normalize, s) && Next(normalize, s, Own(step), s')
    ensures s'.project.episodes.Listed?
    ensures IsSkipped(s'.project, s'.disk.sources, rel, offset) <==>
            !GoesThrough(Own(step)) && (IsSkipped(s.project, s.disk.sources, rel, offset)
                                        || LetsGo(s, Own(step), s', rel, offset))
  {
    match step
    case CommitBatch(batch, result) => CommitSkips(normalize, s, batch, result, s', rel, offset);
    case DoReset(from, allowed) =>
      ResetSkipsNothing(s.project, s.disk, from, allowed, s'.project, s'.disk, rel, offset);
    case Annotate =>
    case _ => BystanderSkips(normalize, s, step, s', rel, offset);
  }

  /** Taking a range away skips exactly the characters it had. */
  lemma RowsSkip(normalize: string -> string, s: P.State, step: Step, s': P.State, rel: string, offset: int)
    requires IsSound(normalize, s) && Next(normalize, s, step, s')
    requires step.Edit? || step.Reorder? || step.AddRow? || step.Delete?
    ensures s'.project.episodes.Listed?
    ensures IsSkipped(s'.project, s'.disk.sources, rel, offset) <==>
            IsSkipped(s.project, s.disk.sources, rel, offset) || LetsGo(s, step, s', rel, offset)
  {
    RewrittenRows(normalize, s, step, s');
    if step.Delete? && IsMarked(step.gone) {
      assert MarkOf(step.gone) in Marks(s.project.episodes.entries);
      WithoutOneTaken(s.project, s.disk.sources, MarkOf(step.gone), rel, offset);
    }
  }

  lemma WithoutOneTaken(p: Project, sources: seq<SourceDoc>, m: Mark, rel: string, offset: int)
    requires IsOrderly(p, sources) && m in Marks(p.episodes.entries)
    ensures var marks := Marks(p.episodes.entries);
            IsTaken(marks - {m}, rel, offset) <==> IsTaken(marks, rel, offset) && !Holds(m.range, rel, offset)
    ensures Holds(m.range, rel, offset) ==>
              CursorPlace(p.cursor).Some? && IsBefore(sources, rel, offset, CursorPlace(p.cursor).value)
  {
    var marks := Marks(p.episodes.entries);
    if IsTaken(marks, rel, offset) {
      var other :| other in marks && Holds(other.range, rel, offset);
      if Holds(m.range, rel, offset) {
        forall b | b in marks && Holds(b.range, rel, offset) ensures b == m {
          TakenOnce(sources, marks, b, m, rel, offset);
        }
      } else {
        assert other in marks - {m};
      }
    }
  }

  /** One step: what is skipped after it is what was skipped before and what it lets go, unless it is a reset. */
  lemma StepSkips(normalize: string -> string, s: P.State, step: Step, s': P.State, rel: string, offset: int)
    requires IsSound(normalize, s) && Next(normalize, s, step, s')
    ensures s'.project.episodes.Listed?
    ensures IsSkipped(s'.project, s'.disk.sources, rel, offset) <==>
            !GoesThrough(step) && (IsSkipped(s.project, s.disk.sources, rel, offset)
                                   || LetsGo(s, step, s', rel, offset))
  {
    match step
    case Own(own) => OwnSkips(normalize, s, own, s', rel, offset);
    case Heal => RegisteredStaysOrderly(s.project, s.disk, s'.project);
    case AddSource(at, doc) => AddedSkips(s.project, s.disk.sources, at, doc, rel, offset);
    case _ => RowsSkip(normalize, s, step, s', rel, offset);
  }

  /** Step `i` lets the character go, and no reset goes through between it and state `j`. */
  ghost predicate IsLetGo(states: seq<P.State>, steps: seq<Step>, i: nat, j: nat, rel: string, offset: int)
  {
    && i < j <= |steps| < |states|
    && LetsGo(states[i], steps[i], states[i + 1], rel, offset)
    && NoReset(steps, i + 1, j)
  }

  ghost predicate NoReset(steps: seq<Step>, i: nat, j: nat)
  {
    forall k | i <= k < j && k < |steps| :: !GoesThrough(steps[k])
  }

  ghost predicate WasLetGo(states: seq<P.State>, steps: seq<Step>, j: nat, rel: string, offset: int)
  {
    exists i: nat :: IsLetGo(states, steps, i, j, rel, offset)
  }

  lemma LetGoStep(states: seq<P.State>, steps: seq<Step>, j: nat, rel: string, offset: int)
    requires 0 < j <= |steps| < |states|
    ensures WasLetGo(states, steps, j, rel, offset) <==>
            || LetsGo(states[j - 1], steps[j - 1], states[j], rel, offset)
            || (!GoesThrough(steps[j - 1]) && WasLetGo(states, steps, j - 1, rel, offset))
  {
    if WasLetGo(states, steps, j, rel, offset) {
      var i: nat :| IsLetGo(states, steps, i, j, rel, offset);
      if i < j - 1 {
        assert IsLetGo(states, steps, i, j - 1, rel, offset);
      }
    }
    if LetsGo(states[j - 1], steps[j - 1], states[j], rel, offset) {
      assert IsLetGo(states, steps, j - 1, j, rel, offset);
    }
    if !GoesThrough(steps[j - 1]) && WasLetGo(states, steps, j - 1, rel, offset) {
      var i: nat :| IsLetGo(states, steps, i, j - 1, rel, offset);
      assert IsLetGo(states, steps, i, j, rel, offset);
    }
  }

  /**
   The exact account of what planning misses: a character before the cursor is in no episode exactly when a row with it
   was deleted, its file was added behind the cursor, or a commit went on behind it, and no reset has gone through
   since.
   */
  lemma {:induction false} SkippedIffLetGo(
    normalize: string -> string, states: seq<P.State>, steps: seq<Step>, j: nat, rel: string, offset: int)
    requires IsRun(normalize, states, steps) && j < |states|
    ensures states[j].project.episodes.Listed?
    ensures IsSkipped(states[j].project, states[j].disk.sources, rel, offset) <==>
            WasLetGo(states, steps, j, rel, offset)
  {
    if j > 0 {
      SkippedIffLetGo(normalize, states, steps, j - 1, rel, offset);
      SkipsAt(normalize, states, steps, j, rel, offset);
      LetGoStep(states, steps, j, rel, offset);
    }
  }

  lemma SkipsAt(
    normalize: string -> string, states: seq<P.State>, steps: seq<Step>, j: nat, rel: string, offset: int)
    requires IsRun(normalize, states, steps) && 0 < j < |states|
    ensures states[j].project.episodes.Listed? && states[j - 1].project.episodes.Listed?
    ensures IsSkipped(states[j].project, states[j].disk.sources, rel, offset) <==>
            !GoesThrough(steps[j - 1]) && (IsSkipped(states[j - 1].project, states[j - 1].disk.sources, rel, offset)
                                           || LetsGo(states[j - 1], steps[j - 1], states[j], rel, offset))
  {
    RunsStayOrderly(normalize, states, steps, j - 1);
    assert Next(normalize, states[j - 1], steps[j - 1], states[j - 1 + 1]);
    StepSkips(normalize, states[j - 1], steps[j - 1], states[j], rel, offset);
  }

  /**
   A file added behind the cursor stays out: until a reset goes through, none of its text that is not whitespace gets
   into an episode.
   */
  lemma AddedStaysOut(
    normalize: string -> string, states: seq<P.State>, steps: seq<Step>, i: nat, j: nat, offset: int)
    requires IsRun(normalize, states, steps) && i < j <= |steps| && steps[i].AddSource?
    requires IsPassed(states[i], steps[i].at) && NoReset(steps, i + 1, j)
    requires 0 <= offset < |steps[i].doc.text| && !IsSpace(steps[i].doc.text[offset])
    ensures states[j].project.episodes.Listed?
    ensures IsSkipped(states[j].project, states[j].disk.sources, steps[i].doc.rel, offset)
    ensures !IsTaken(Marks(Rows(states[j].project)), steps[i].doc.rel, offset)
  {
    var doc := steps[i].doc;
    assert Next(normalize, states[i], steps[i], states[i + 1]);
    InsertedIsDistinct(states[i].disk.sources, steps[i].at, doc);
    assert IsLetGo(states, steps, i, j, doc.rel, offset);
    SkippedIffLetGo(normalize, states, steps, j, doc.rel, offset);
  }

  // ----- what a commit passes over

  lemma SourcesStay(normalize: string -> string, s: P.State, step: Step, s': P.State)
    requires Next(normalize, s, step, s') && !step.AddSource?
    ensures s'.disk.sources == s.disk.sources
  {
    if step.Own? {
      OwnSourcesStay(normalize, s, step.step, s');
    }
  }

  lemma OwnSourcesStay(normalize: string -> string, s: P.State, step: P.Step, s': P.State)
    requires P.Next(normalize, s, step, s')
    ensures s'.disk.sources == s.disk.sources
  {
  }

  /** Only a plan call that begins is in flight afterwards and was not before. */
  lemma OnlyBegunEnters(normalize: string -> string, s: P.State, step: Step, s': P.State, pending: Pending)
    requires Next(normalize, s, step, s') && pending in s'.inFlight && pending !in s.inFlight
    ensures IsBegin(step, pending)
  {
  }

  predicate IsBegin(step: Step, pending: Pending)
  {
    step.Own? && step.step.Begin? && step.step.pending == pending
  }

  /** The plan call began with step `b` and has been in flight ever since, up to state `i`. */
  ghost predicate IsFlyingSince(states: seq<P.State>, steps: seq<Step>, b: nat, i: nat, pending: Pending)
  {
    && b < i <= |steps| < |states|
    && IsBegin(steps[b], pending)
    && forall m | b < m <= i :: pending in states[m].inFlight
  }

  ghost predicate IsFlying(states: seq<P.State>, steps: seq<Step>, i: nat, pending: Pending)
  {
    exists b: nat :: IsFlyingSince(states, steps, b, i, pending)
  }

  lemma {:induction false} InFlightHasBegun(
    normalize: string -> string, states: seq<P.State>, steps: seq<Step>, i: nat, pending: Pending)
    requires IsRun(normalize, states, steps) && i < |states| && pending in states[i].inFlight
    ensures IsFlying(states, steps, i, pending)
  {
    if i > 0 {
      assert Next(normalize, states[i - 1], steps[i - 1], states[i - 1 + 1]);
      if pending in states[i - 1].inFlight {
        InFlightHasBegun(normalize, states, steps, i - 1, pending);
        StillFlying(states, steps, i, pending);
      } else {
        OnlyBegunEnters(normalize, states[i - 1], steps[i - 1], states[i], pending);
        assert IsFlyingSince(states, steps, i - 1, i, pending);
      }
    }
  }

  lemma StillFlying(states: seq<P.State>, steps: seq<Step>, i: nat, pending: Pending)
    requires 0 < i <= |steps| < |states| && IsFlying(states, steps, i - 1, pending) && pending in states[i].inFlight
    ensures IsFlying(states, steps, i, pending)
  {
    var b: nat :| IsFlyingSince(states, steps, b, i - 1, pending);
    assert IsFlyingSince(states, steps, b, i, pending);
  }

  /** Sources once there are there for good. */
  lemma {:induction false} WithinLater(
    normalize: string -> string, states: seq<P.State>, steps: seq<Step>, b: nat, i: nat)
    requires IsRun(normalize, states, steps) && b <= i < |states|
    ensures IsWithin(states[b].disk.sources, states[i].disk.sources)
  {
    RunsStayOrderly(normalize, states, steps, b);
    if b == i {
      AllWithin(states[b].disk.sources);
    } else {
      WithinLater(normalize, states, steps, b, i - 1);
      assert Next(normalize, states[i - 1], steps[i - 1], states[i - 1 + 1]);
      WithinNext(normalize, states[b].disk.sources, states[i - 1], steps[i - 1], states[i]);
    }
  }

  lemma WithinNext(normalize: string -> string, before: seq<SourceDoc>, s: P.State, step: Step, s': P.State)
    requires Next(normalize, s, step, s') && IsWithin(before, s.disk.sources)
    ensures IsWithin(before, s'.disk.sources)
  {
    if step.AddSource? {
      WithinAsWell(before, s.disk.sources, step.at, step.doc);
    } else {
      SourcesStay(normalize, s, step, s');
    }
  }

  /** Step `j`, between `b` and `i`, has added the file. */
  ghost predicate IsAddedBetween(steps: seq<Step>, b: nat, j: nat, i: nat, rel: string)
  {
    b <= j < i <= |steps| && steps[j].AddSource? && steps[j].doc.rel == rel
  }

  lemma {:induction false} AddedInBetween(
    normalize: string -> string, states: seq<P.State>, steps: seq<Step>, b: nat, i: nat, rel: string)
    requires IsRun(normalize, states, steps) && b <= i < |states|
    requires Idx(states[b].disk.sources, rel) < 0 <= Idx(states[i].disk.sources, rel)
    ensures exists j: nat :: IsAddedBetween(steps, b, j, i, rel)
  {
    if 0 <= Idx(states[i - 1].disk.sources, rel) {
      AddedInBetween(normalize, states, steps, b, i - 1, rel);
      var j: nat :| IsAddedBetween(steps, b, j, i - 1, rel);
      assert IsAddedBetween(steps, b, j, i, rel);
    } else {
      assert Next(normalize, states[i - 1], steps[i - 1], states[i - 1 + 1]);
      AddedBy(normalize, states[i - 1], steps[i - 1], states[i], rel);
      assert IsAddedBetween(steps, b, i - 1, i, rel);
    }
  }

  lemma AddedBy(normalize: string -> string, s: P.State, step: Step, s': P.State, rel: string)
    requires Next(normalize, s, step, s')
    requires Idx(s.disk.sources, rel) < 0 <= Idx(s'.disk.sources, rel)
    ensures step.AddSource? && step.doc.rel == rel
  {
    if !step.AddSource? {
      SourcesStay(normalize, s, step, s');
    } else if step.doc.rel != rel {
      SameOtherwise(s.disk.sources, step.at, step.doc, rel);
    }
  }

  /** A file has been added while the plan call was in flight, up to state `i`. */
  ghost predicate IsAddedInFlight(
    states: seq<P.State>, steps: seq<Step>, j: nat, i: nat, pending: Pending, rel: string)
  {
    && j < i <= |steps| < |states| && steps[j].AddSource? && steps[j].doc.rel == rel
    && forall m | j <= m <= i :: pending in states[m].inFlight
  }

  lemma AddedWhileFlying(
    states: seq<P.State>, steps: seq<Step>, b: nat, j: nat, i: nat, pending: Pending, rel: string)
    requires IsFlyingSince(states, steps, b, i, pending) && IsAddedBetween(steps, b, j, i, rel)
    ensures IsAddedInFlight(states, steps, j, i, pending, rel)
  {
    assert b != j;
  }

  /** A commit that goes through goes on behind text of a file only if the file was added while its plan call ran. */
  lemma PassedWasAdded(
    normalize: string -> string, states: seq<P.State>, steps: seq<Step>, i: nat, rel: string, offset: int)
    requires IsRun(normalize, states, steps) && i < |steps|
    requires steps[i].Own? && steps[i].step.CommitBatch? && steps[i].step.result.Ok?
    requires LetsGo(states[i], steps[i], states[i + 1], rel, offset)
    ensures exists j: nat :: IsAddedInFlight(states, steps, j, i, steps[i].step.batch, rel)
  {
    var batch := steps[i].step.batch;
    CommittedWasFlying(normalize, states, steps, i);
    var b: nat :| IsFlyingSince(states, steps, b, i, batch);
    UnseenAtBegin(normalize, states, steps, b, i, rel, offset);
    AddedInBetween(normalize, states, steps, b, i, rel);
    var j: nat :| IsAddedBetween(steps, b, j, i, rel);
    AddedWhileFlying(states, steps, b, j, i, batch, rel);
  }

  lemma CommittedWasFlying(normalize: string -> string, states: seq<P.State>, steps: seq<Step>, i: nat)
    requires IsRun(normalize, states, steps) && i < |steps| && steps[i].Own? && steps[i].step.CommitBatch?
    ensures IsFlying(states, steps, i, steps[i].step.batch)
  {
    assert Next(normalize, states[i], steps[i], states[i + 1]);
    InFlightHasBegun(normalize, states, steps, i, steps[i].step.batch);
  }

  lemma UnseenAtBegin(
    normalize: string -> string, states: seq<P.State>, steps: seq<Step>, b: nat, i: nat, rel: string, offset: int)
    requires IsRun(normalize, states, steps) && i < |steps|
    requires steps[i].Own? && steps[i].step.CommitBatch? && steps[i].step.result.Ok?
    requires IsFlyingSince(states, steps, b, i, steps[i].step.batch)
    requires LetsGo(states[i], steps[i], states[i + 1], rel, offset)
    ensures Idx(states[b].disk.sources, rel) < 0 <= Idx(states[i].disk.sources, rel)
  {
    var s, batch, r := states[i], steps[i].step.batch, steps[i].step.result;
    assert Next(normalize, s, steps[i], states[i + 1]);
    RunsStayOrderly(normalize, states, steps, i);
    BegunWithin(normalize, states, steps, b, i, batch);
    CommitStaysOrderly(s.project, states[b].disk.sources, s.disk, batch, normalize, r);
  }

  lemma BegunWithin(
    normalize: string -> string, states: seq<P.State>, steps: seq<Step>, b: nat, i: nat, pending: Pending)
    requires IsRun(normalize, states, steps) && IsFlyingSince(states, steps, b, i, pending)
    ensures IsPendingWithin(pending, states[b].disk.sources, states[i].disk.sources, normalize)
  {
    assert Next(normalize, states[b], steps[b], states[b + 1]);
    RunsStayOrderly(normalize, states, steps, b);
    P.BeginIsPending(
      states[b].disk.sources, normalize, states[b], states[b + 1], steps[b].step.windowChars, pending);
    WithinLater(normalize, states, steps, b, i);
  }

  // ----- the end of the sources

  /** Every character that is not whitespace is in an episode. */
  ghost predicate IsAllTaken(p: Project, sources: seq<SourceDoc>)
  {
    forall rel, offset | IsText(sources, rel, offset) :: IsTaken(Marks(Rows(p)), rel, offset)
  }

  ghost predicate IsNothingLetGo(states: seq<P.State>, steps: seq<Step>, j: nat)
  {
    forall rel, offset :: !WasLetGo(states, steps, j, rel, offset)
  }

  lemma AllTakenIff(normalize: string -> string, states: seq<P.State>, steps: seq<Step>, j: nat)
    requires IsRun(normalize, states, steps) && j < |states| && states[j].project.episodes.Listed?
    requires IsPlannedOrSkipped(states[j].project, states[j].disk.sources)
    ensures IsAllTaken(states[j].project, states[j].disk.sources) <==> IsNothingLetGo(states, steps, j)
  {
    var p, sources := states[j].project, states[j].disk.sources;
    forall rel, offset
      ensures IsSkipped(p, sources, rel, offset) <==> WasLetGo(states, steps, j, rel, offset)
    {
      SkippedIffLetGo(normalize, states, steps, j, rel, offset);
    }
    if IsAllTaken(p, sources) {
      forall rel, offset ensures !WasLetGo(states, steps, j, rel, offset) {
        assert IsSkipped(p, sources, rel, offset) ==> IsText(sources, rel, offset);
      }
    }
  }

  /** When a plan call finds nothing left, everything is in an episode exactly if nothing was let go since a reset. */
  lemma ExhaustedOutlookIff(
    normalize: string -> string, states: seq<P.State>, steps: seq<Step>, j: nat, windowChars: int,
    used: map<string, string>)
    requires IsRun(normalize, states, steps) && j < |states| && windowChars >= 1
    requires IsOutlook(states[j].project, states[j].disk, windowChars, Ok(Exhausted(used)))
    ensures IsAllTaken(states[j].project, states[j].disk.sources) <==> IsNothingLetGo(states, steps, j)
  {
    PlanningStopsIff(normalize, states, steps, j, windowChars, Ok(Exhausted(used)));
    AllTakenIff(normalize, states, steps, j);
  }

  /** The same for a commit that reports it. */
  lemma ExhaustedCommitIff(normalize: string -> string, states: seq<P.State>, steps: seq<Step>, i: nat)
    requires IsRun(normalize, states, steps) && i < |steps|
    requires steps[i].Own? && steps[i].step.CommitBatch?
    requires steps[i].step.result.Ok? && steps[i].step.result.value.exhausted
    ensures IsAllTaken(states[i + 1].project, states[i + 1].disk.sources) <==> IsNothingLetGo(states, steps, i + 1)
  {
    var s, batch, r := states[i], steps[i].step.batch, steps[i].step.result;
    assert Next(normalize, s, steps[i], states[i + 1]);
    RunsStayOrderly(normalize, states, steps, i);
    var before := CommitIsCommitted(normalize, s, batch, r, states[i + 1]);
    LastIsPlanned(s.project, before, s.disk, batch, r.value);
    AllTakenIff(normalize, states, steps, i + 1);
  }

  lemma LastIsPlanned(p: Project, before: seq<SourceDoc>, disk: Disk, pending: Pending, done: Committed)
    requires IsOrderly(p, disk.sources) && |pending.drafts| == |pending.ends| > 0
    requires IsCommitted(p, before, disk, pending, done) && done.exhausted
    ensures done.project.episodes.Listed? && IsPlannedOrSkipped(done.project, disk.sources)
  {
    var next :| IsBatchAdded(p, disk.sources, pending, next, done.project);
    LastBatchLeavesNothing(disk.sources, pending.snap, pending.ends);
    StartIsCursor(done.project, disk.sources);
    NothingLeftIsPlanned(done.project, disk.sources);
  }
}
