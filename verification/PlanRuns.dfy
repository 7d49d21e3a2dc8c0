/**
 All runs of planning in which nobody else stores, moves or deletes rows or adds source files: plan calls in flight,
 commits, resets, and the rest of the system rewriting what rows say and changing files in between.
 */
module PlanRuns {
  import opened Wrappers
  import opened SourceText
  import opened Boundaries
  import opened EpisodeFiles
  import opened Ledger
  import opened Tiling
  import opened PlanSpec
  import opened LedgerInvariant
  import opened PlanLaws
  import opened EpisodeSource
  import opened CommitFailures
  import opened Planner
  import opened ResetSpec
  import opened ResetLaws

  /** The stored project, its directory, and the plan calls that have taken their snapshot and not yet committed. */
  datatype State = State(project: Project, disk: Disk, inFlight: set<Pending>)

  /** A project nothing has been planned for. The directory may already hold anything besides the sources. */
  ghost predicate IsInitial(sources: seq<SourceDoc>, s: State)
  {
    s.project == Project(Listed([]), NoCursor, NoFingerprints) && s.disk.sources == sources && s.inFlight == {}
  }

  /** A plan call takes its snapshot, and the model's drafts resolve against its window. */
  ghost predicate Begins(normalize: string -> string, s: State, s': State, windowChars: int, pending: Pending)
  {
    && windowChars >= 1
    && IsOutlook(s.project, s.disk, windowChars, Ok(Window(pending.snap)))
    && |pending.drafts| == |pending.ends| > 0
    && IsResolution(pending.snap.window, Anchors(pending.drafts), pending.snap.final, normalize, pending.ends)
    && s' == s.(inFlight := s.inFlight + {pending})
  }

  /** A plan call commits, or is refused and leaves everything as it was. */
  ghost predicate Commits(s: State, s': State, pending: Pending, r: Result<Committed, PlanError>)
  {
    && pending in s.inFlight && |pending.drafts| == |pending.ends| > 0
    && IsCommit(s.project, s.disk, pending.snap, pending.drafts, pending.ends, r)
    && s' == if r.Ok? then State(r.value.project, s.disk.(files := r.value.files), s.inFlight - {pending})
             else s.(inFlight := s.inFlight - {pending})
  }

  /** A plan call is stopped by the system while it writes its commit. */
  ghost predicate FailsToCommit(s: State, s': State, pending: Pending, trouble: Trouble)
  {
    && pending in s.inFlight && |pending.drafts| == |pending.ends| > 0
    && IsFailedCommit(s.project, s.disk, pending.snap, pending.drafts, pending.ends, trouble, s'.disk.files)
    && s' == State(s.project, s.disk.(files := s'.disk.files), s.inFlight - {pending})
  }

  /** Rows are rewritten (title, hook, status, script), but not their numbers and ranges. */
  ghost predicate IsAnnotated(p: Project, p': Project)
  {
    && p.episodes.Listed? && p'.episodes.Listed? && p' == p.(episodes := p'.episodes)
    && |p'.episodes.entries| == |p.episodes.entries|
    && forall i | 0 <= i < |p.episodes.entries| :: IsSameRow(p.episodes.entries[i], p'.episodes.entries[i])
  }

  ghost predicate IsSameRow(e: Entry, e': Entry)
  {
    e.Entry? && e'.Entry? && e'.episode == e.episode && e'.range == e.range
  }

  datatype Step =
    | Begin(windowChars: int, pending: Pending)
    | CommitBatch(batch: Pending, result: Result<Committed, PlanError>)
    | FailCommit(failed: Pending, trouble: Trouble)
    | Backfill(used: map<string, string>)
    | DoReset(from: int, allowed: set<int>)
    | FailReset(failedFrom: int, budget: nat)
    | Annotate
    | Disturb

  /** One step. Files, products and unrelated texts may change at any time; the candidate sources stay as they are. */
  ghost predicate Next(normalize: string -> string, s: State, step: Step, s': State)
  {
    match step
    case Begin(windowChars, pending) => Begins(normalize, s, s', windowChars, pending)
    case CommitBatch(batch, result) => Commits(s, s', batch, result)
    case FailCommit(failed, trouble) => FailsToCommit(s, s', failed, trouble)
    case Backfill(used) => s' == s.(project := BackfilledProject(s.project, s.disk, used))
    case DoReset(from, allowed) =>
      IsReset(s.project, s.disk, from, allowed, s'.project, s'.disk) && s'.inFlight == s.inFlight
    case FailReset(from, budget) =>
      IsInterrupted(s.project, s.disk, from, budget, s'.project, s'.disk) && s'.inFlight == s.inFlight
    case Annotate => IsAnnotated(s.project, s'.project) && s' == s.(project := s'.project)
    case Disturb => s'.disk.sources == s.disk.sources && s' == s.(disk := s'.disk)
  }

  ghost predicate IsRun(sources: seq<SourceDoc>, normalize: string -> string, states: seq<State>, steps: seq<Step>)
  {
    && |states| == |steps| + 1
    && IsInitial(sources, states[0])
    && forall i | 0 <= i < |steps| :: Next(normalize, states[i], steps[i], states[i + 1])
  }

  /** What holds at every moment. */
  ghost predicate IsSound(sources: seq<SourceDoc>, normalize: string -> string, s: State)
  {
    && s.disk.sources == sources
    && IsTiled(s.project, sources)
    && forall pending | pending in s.inFlight :: IsPending(pending, sources, normalize)
  }

  lemma AnnotationKeepsTiling(p: Project, p': Project, sources: seq<SourceDoc>)
    requires IsTiled(p, sources) && IsAnnotated(p, p')
    ensures IsTiled(p', sources)
  {
    var entries, entries' := p.episodes.entries, p'.episodes.entries;
    forall i | 0 <= i < |entries'| ensures IsRow(entries'[i], i + 1) && Coords(entries'[i]) == Coords(entries[i]) {
      assert IsRow(entries[i], i + 1) && IsSameRow(entries[i], entries'[i]);
    }
    assert RangesOf(entries') == RangesOf(entries);
  }

  lemma BeginIsPending(
    sources: seq<SourceDoc>, normalize: string -> string, s: State, s': State, windowChars: int, pending: Pending)
    requires s.disk.sources == sources && Begins(normalize, s, s', windowChars, pending)
    ensures IsPending(pending, sources, normalize)
  {
    var healed :| IsRegistered(s.project, s.disk, healed)
                  && IsOutlookOfHealed(healed, s.disk, windowChars, Ok(Window(pending.snap)));
    var start := EffectiveStart(healed, s.disk.sources).value;
    SnapKeepsStart(s.disk, start, windowChars, pending.snap);
    assert IsSnapOf(sources, s.disk, windowChars, pending.snap);
  }

  lemma SnapKeepsStart(disk: Disk, start: Place, windowChars: int, snap: Snap)
    requires windowChars >= 1 && OutlookFrom(disk, start, windowChars) == Ok(Window(snap))
    ensures snap.startRef == start
  {
  }

  lemma StepIsSound(sources: seq<SourceDoc>, normalize: string -> string, s: State, step: Step, s': State)
    requires DistinctRels(sources) && IsSound(sources, normalize, s) && Next(normalize, s, step, s')
    ensures IsSound(sources, normalize, s')
  {
    match step
    case Begin(windowChars, pending) =>
      BeginIsPending(sources, normalize, s, s', windowChars, pending);
    case CommitBatch(batch, result) =>
      CommitKeepsTiling(s.project, s.disk, batch, normalize, result);
    case FailCommit(failed, trouble) =>
    case Backfill(used) =>
    case DoReset(from, allowed) =>
      ResetKeepsTiling(s.project, s.disk, from, allowed, s'.project, s'.disk);
    case FailReset(from, budget) =>
    case Annotate =>
      AnnotationKeepsTiling(s.project, s'.project, sources);
    case Disturb =>
  }

  /**
   In every run, whatever plan calls and resets overlap, the stored episodes are numbered 1..n and tile the sources,
   the cursor is the end of episode n, and the fingerprints are those of the sources.
   */
  lemma {:induction false} RunsStayTiled(
    sources: seq<SourceDoc>, normalize: string -> string, states: seq<State>, steps: seq<Step>, i: nat)
    requires DistinctRels(sources) && IsRun(sources, normalize, states, steps) && i < |states|
    ensures IsSound(sources, normalize, states[i])
  {
    if i > 0 {
      RunsStayTiled(sources, normalize, states, steps, i - 1);
      assert Next(normalize, states[i - 1], steps[i - 1], states[i - 1 + 1]);
      StepIsSound(sources, normalize, states[i - 1], steps[i - 1], states[i]);
    }
  }

  /** At every moment of every run a reset from any episode is accepted, once what it would discard is confirmed. */
  lemma EveryResetIsAccepted(
    sources: seq<SourceDoc>, normalize: string -> string, states: seq<State>, steps: seq<Step>, i: nat, from: int)
    requires DistinctRels(sources) && IsRun(sources, normalize, states, steps) && i < |states|
    ensures MayReset(states[i].project, sources, from) <==>
            from == 1 || 2 <= from <= |Rows(states[i].project)|
  {
    RunsStayTiled(sources, normalize, states, steps, i);
    var p := states[i].project;
    if 2 <= from <= |p.episodes.entries| {
      TiledCanBeKept(p, sources, from);
    } else if from > 1 {
      NumberedOrder(p.episodes.entries);
      assert from !in KnownNums(p.episodes.entries);
    }
  }

  /**
   At every moment of every run a plan call is stopped only by files that belong to no episode or by there being no
   source at all; if neither is the case it goes on from the end of the last episode or finds everything planned.
   */
  lemma PlanningNeverSticks(
    sources: seq<SourceDoc>, normalize: string -> string, states: seq<State>, steps: seq<Step>, i: nat,
    windowChars: int, r: Result<Outlook, PlanError>)
    requires DistinctRels(sources) && IsRun(sources, normalize, states, steps) && i < |states| && windowChars >= 1
    requires IsOutlook(states[i].project, states[i].disk, windowChars, r)
    ensures IsTiled(states[i].project, sources)
    ensures r.Err? ==> || (r == Err(NoSources) && sources == [])
                       || (r == Err(MissingRange) && !NoOrphans(Rows(states[i].project), states[i].disk.files))
    ensures r.Ok? && r.value.Exhausted? ==> IsFullyPlanned(states[i].project, sources)
  {
    RunsStayTiled(sources, normalize, states, steps, i);
    var p, disk := states[i].project, states[i].disk;
    var healed :| IsRegistered(p, disk, healed) && IsOutlookOfHealed(healed, disk, windowChars, r);
    RegistrationKeepsKind(p, disk, healed);
    if r.Ok? && r.value.Exhausted? {
      ExhaustedOutlook(p, disk, windowChars, r.value.used);
    }
    NumberedOrder(p.episodes.entries);
    if SomeLackRange(Rows(healed)) {
      if NoOrphans(p.episodes.entries, disk.files) {
        RegistrationIsIdle(p, disk, healed);
      }
    } else {
      TiledRegistration(p, disk, healed);
      CurrentNeverMismatches(sources);
      TiledOutlook(p, disk, windowChars);
    }
  }

  lemma TiledOutlook(p: Project, disk: Disk, windowChars: int)
    requires DistinctRels(disk.sources) && IsTiled(p, disk.sources) && windowChars >= 1
    ensures EffectiveStart(p, disk.sources).None? ==> disk.sources == []
    ensures EffectiveStart(p, disk.sources).Some? ==>
              OutlookFrom(disk, EffectiveStart(p, disk.sources).value, windowChars).Ok?
    ensures Mismatched(p.fingerprints, disk.sources) == {}
  {
    CurrentNeverMismatches(disk.sources);
    TiledStart(p, disk.sources);
    if EffectiveStart(p, disk.sources).Some? {
      StartIsInSources(p, disk.sources);
    }
  }

  /**
   A commit that succeeds in a run might as well have taken its snapshot at that very moment; it appends its episodes,
   and planning continues strictly further on.
   */
  lemma CommitsAreAtomic(
    sources: seq<SourceDoc>, normalize: string -> string, states: seq<State>, steps: seq<Step>, i: nat)
    requires DistinctRels(sources) && IsRun(sources, normalize, states, steps) && i < |steps|
    requires steps[i].CommitBatch? && steps[i].result.Ok?
    ensures exists windowChars :: windowChars >= 1
              && IsOutlook(states[i].project, states[i].disk, windowChars, Ok(Window(steps[i].batch.snap)))
    ensures Rows(states[i].project) < Rows(states[i + 1].project)
    ensures var from, to := EffectiveStart(states[i].project, sources), EffectiveStart(states[i + 1].project, sources);
            && from.Some? && to.Some?
            && Tiling.Before(Idx(sources, from.value.rel), from.value.offset,
                             Idx(sources, to.value.rel), to.value.offset)
  {
    RunsStayTiled(sources, normalize, states, steps, i);
    var s, batch, r := states[i], steps[i].batch, steps[i].result;
    assert Next(normalize, s, steps[i], states[i + 1]);
    CommitKeepsTiling(s.project, s.disk, batch, normalize, r);
    CommitAdvances(s.project, s.disk, batch, normalize, r);
    var before, windowChars :| windowChars >= 1 && IsSnapOf(sources, before, windowChars, batch.snap);
    CommitIsAtomic(s.project, before, s.disk, windowChars, batch, r);
  }

  /**
   After a commit in a run was stopped by the system, the next plan call is refused for want of a range exactly when
   the commit had got as far as creating the file of a new episode.
   */
  lemma FailedCommitsMayBlock(
    sources: seq<SourceDoc>, normalize: string -> string, states: seq<State>, steps: seq<Step>, i: nat,
    windowChars: int, r: Result<Outlook, PlanError>)
    requires DistinctRels(sources) && IsRun(sources, normalize, states, steps) && i < |steps| && steps[i].FailCommit?
    requires windowChars >= 1 && IsOutlook(states[i + 1].project, states[i + 1].disk, windowChars, r)
    ensures r == Err(MissingRange) <==> CreatedNew(steps[i].trouble, |Rows(states[i].project)|)
  {
    RunsStayTiled(sources, normalize, states, steps, i);
    var s := states[i];
    assert Next(normalize, s, steps[i], states[i + 1]);
    RerunAfterFailure(
      s.project, s.disk, steps[i].failed, normalize, steps[i].trouble, states[i + 1].disk.files, windowChars, r);
  }

  // ----- what commits leave and the rest keeps

  /** Every episode's exact text is in its file, and no numbered file is without an episode. */
  ghost predicate IsConsistent(sources: seq<SourceDoc>, s: State)
  {
    && s.disk.sources == sources && IsTiled(s.project, sources)
    && InSync(s.disk.files, s.project.episodes.entries, sources)
    && NoOrphans(s.project.episodes.entries, s.disk.files)
  }

  /** Nothing but commits and resets that go through touches the derived files in this step. */
  predicate IsQuiet(step: Step)
  {
    !step.Disturb? && !step.FailReset? && !step.FailCommit?
  }

  lemma AnnotationStaysConsistent(sources: seq<SourceDoc>, s: State, s': State)
    requires IsConsistent(sources, s) && IsAnnotated(s.project, s'.project) && s' == s.(project := s'.project)
    ensures IsConsistent(sources, s')
  {
    AnnotationKeepsTiling(s.project, s'.project, sources);
    var entries, entries' := s.project.episodes.entries, s'.project.episodes.entries;
    forall i | 0 <= i < |entries'| ensures IsFiled(s.disk.files, sources, entries'[i], i + 1) {
      assert IsSameRow(entries[i], entries'[i]) && IsFiled(s.disk.files, sources, entries[i], i + 1);
    }
    NumberedOrder(entries);
    NumberedOrder(entries');
  }

  /** A successful commit leaves files and ledger consistent, whatever the files were before. */
  lemma CommitMakesConsistent(
    sources: seq<SourceDoc>, normalize: string -> string, s: State, step: Step, s': State)
    requires DistinctRels(sources) && IsSound(sources, normalize, s) && Next(normalize, s, step, s')
    requires step.CommitBatch? && step.result.Ok?
    ensures IsConsistent(sources, s')
  {
    CommitKeepsTiling(s.project, s.disk, step.batch, normalize, step.result);
    CommitLeavesNoOrphans(s.project, s.disk, step.batch, normalize, step.result);
  }

  lemma QuietStepStaysConsistent(
    sources: seq<SourceDoc>, normalize: string -> string, s: State, step: Step, s': State)
    requires DistinctRels(sources) && IsSound(sources, normalize, s) && Next(normalize, s, step, s')
    requires IsConsistent(sources, s) && IsQuiet(step)
    ensures IsConsistent(sources, s')
  {
    match step
    case Begin(windowChars, pending) =>
    case CommitBatch(batch, result) =>
      if result.Ok? {
        CommitMakesConsistent(sources, normalize, s, step, s');
      }
    case FailCommit(failed, trouble) =>
    case Backfill(used) =>
    case DoReset(from, allowed) =>
      ResetStaysInSync(s.project, s.disk, from, allowed, s'.project, s'.disk);
    case FailReset(from, budget) =>
    case Annotate =>
      AnnotationStaysConsistent(sources, s, s');
    case Disturb =>
  }

  /** All states after the `i`-th, up to the `j`-th. */
  ghost predicate AreConsistent(sources: seq<SourceDoc>, states: seq<State>, i: nat, j: nat)
  {
    forall k | i < k <= j && k < |states| :: IsConsistent(sources, states[k])
  }

  lemma CommitAt(sources: seq<SourceDoc>, normalize: string -> string, states: seq<State>, steps: seq<Step>, i: nat)
    requires DistinctRels(sources) && IsRun(sources, normalize, states, steps) && i < |steps|
    requires steps[i].CommitBatch? && steps[i].result.Ok?
    ensures AreConsistent(sources, states, i, i + 1)
  {
    RunsStayTiled(sources, normalize, states, steps, i);
    assert Next(normalize, states[i], steps[i], states[i + 1]);
    CommitMakesConsistent(sources, normalize, states[i], steps[i], states[i + 1]);
  }

  lemma QuietStepAt(
    sources: seq<SourceDoc>, normalize: string -> string, states: seq<State>, steps: seq<Step>, i: nat)
    requires DistinctRels(sources) && IsRun(sources, normalize, states, steps) && i < |steps|
    requires IsConsistent(sources, states[i]) && IsQuiet(steps[i])
    ensures AreConsistent(sources, states, i, i + 1)
  {
    RunsStayTiled(sources, normalize, states, steps, i);
    assert Next(normalize, states[i], steps[i], states[i + 1]);
    QuietStepStaysConsistent(sources, normalize, states[i], steps[i], states[i + 1]);
  }

  /** Step `i` is a successful commit, and up to state `j` no other kind of step touches the derived files. */
  ghost predicate IsQuietSince(steps: seq<Step>, i: nat, j: nat)
  {
    && i < j <= |steps|
    && steps[i].CommitBatch? && steps[i].result.Ok?
    && forall k | i < k < j :: IsQuiet(steps[k])
  }

  lemma QuietBefore(steps: seq<Step>, i: nat, j: nat)
    requires IsQuietSince(steps, i, j) && i + 1 < j
    ensures IsQuietSince(steps, i, j - 1) && IsQuiet(steps[j - 1])
  {
  }

  /** From a successful commit on, through plan calls, commits, resets and annotations, files and ledger agree. */
  lemma {:induction false} RunsStayConsistent(
    sources: seq<SourceDoc>, normalize: string -> string, states: seq<State>, steps: seq<Step>, i: nat, j: nat)
    requires DistinctRels(sources) && IsRun(sources, normalize, states, steps) && IsQuietSince(steps, i, j)
    ensures AreConsistent(sources, states, i, j)
    decreases j
  {
    if j == i + 1 {
      CommitAt(sources, normalize, states, steps, i);
    } else {
      QuietBefore(steps, i, j);
      RunsStayConsistent(sources, normalize, states, steps, i, j - 1);
      QuietStepAt(sources, normalize, states, steps, j - 1);
    }
  }

  /**
   At all these moments the derived files of each source, joined, are a prefix of it, both readers give the same text
   for every episode, and no plan call is refused for want of a range.
   */
  lemma NothingIsLostInRuns(
    sources: seq<SourceDoc>, normalize: string -> string, states: seq<State>, steps: seq<Step>, i: nat, j: nat,
    rel: string, episode: int, windowChars: int, r: Result<Outlook, PlanError>)
    requires DistinctRels(sources) && IsRun(sources, normalize, states, steps) && IsQuietSince(steps, i, j)
    requires 1 <= episode <= |Rows(states[j].project)|
    requires windowChars >= 1 && IsOutlook(states[j].project, states[j].disk, windowChars, r)
    ensures IsConsistent(sources, states[j])
    ensures var files, entries := states[j].disk.files, Rows(states[j].project);
            var ranges := RangesOf(entries);
            && (forall num | 1 <= num <= |entries| :: CanonicalName(num) in files)
            && 0 <= FileEnd(ranges, rel) <= |TextAt(sources, rel)|
            && Joined(ranges, DerivedFiles(files, |entries|), rel) == TextAt(sources, rel)[..FileEnd(ranges, rel)]
            && LedgerSource(states[j].project, states[j].disk, episode) ==
               if IsBlank(files[CanonicalName(episode)]) then None else Some(files[CanonicalName(episode)])
    ensures r != Err(MissingRange)
  {
    RunsStayConsistent(sources, normalize, states, steps, i, j);
    var s := states[j];
    assert IsConsistent(sources, s);
    DerivedFilesMakeAPrefix(s.project, s.disk, rel);
    ReadersAgree(s.project, s.disk, episode);
    MissingRangeIffOrphans(s.project, s.disk, windowChars, r);
  }

  /** What a commit in a run reports about the end of the sources is true. */
  lemma ExhaustionIsTrue(
    sources: seq<SourceDoc>, normalize: string -> string, states: seq<State>, steps: seq<Step>, i: nat)
    requires DistinctRels(sources) && IsRun(sources, normalize, states, steps) && i < |steps|
    requires steps[i].CommitBatch? && steps[i].result.Ok? && steps[i].result.value.exhausted
    ensures IsTiled(states[i + 1].project, sources) && IsFullyPlanned(states[i + 1].project, sources)
  {
    RunsStayTiled(sources, normalize, states, steps, i);
    assert Next(normalize, states[i], steps[i], states[i + 1]);
    ExhaustedCommit(states[i].project, states[i].disk, steps[i].batch, normalize, steps[i].result);
  }
}
