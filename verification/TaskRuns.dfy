/**
 Generation tasks as rows guarded by SQL conditions, and every way workers, users and crashes can act on them.

 Leases are not mentioned: any number of workers may act at any time, which covers every flap and takeover.
 */
module TaskRuns {

  datatype Status = Queued | Running | Cancelling | Succeeded | Failed | Cancelled

  predicate IsTerminal(s: Status)
  {
    s == Succeeded || s == Failed || s == Cancelled
  }

  type Rows = map<string, Status>

  /** How far a worker has got with a task it claimed. */
  datatype Stage =
    | Claimed     // still deciding
    | Deferred    // put back
    | Dispatched  // the body exists but has not reached the call
    | Entered     // execute_generation_task has been entered
    | Losing      // its result met a row that was no longer running
    | Settled     // it has written its outcome
    | Gone        // the worker crashed, or the body was cancelled before it started

  /** One claim of a task by a worker, with the history bit the theorem is about. */
  datatype Attempt = Attempt(worker: int, id: string, stage: Stage, entered: bool)

  datatype Jobs = Jobs(rows: Rows, attempts: seq<Attempt>)

  datatype Outcome = ToSucceeded | ToFailed | ToCancelled | ToCancelling | CascadeFailed | CascadeCancelled

  // ----- the guarded updates

  /** UPDATE ... SET status = target WHERE task_id = id AND status IN sources. */
  function Updated(rows: Rows, id: string, sources: set<Status>, target: Status): Rows
  {
    if id in rows && rows[id] in sources then rows[id := target] else rows
  }

  predicate IsIn(rows: Rows, id: string, s: Status)
  {
    id in rows && rows[id] == s
  }

  /** The states an update acts on, and the state it leads to. */
  function SourcesOf(outcome: Outcome): set<Status>
  {
    match outcome
    case ToSucceeded => {Running}
    case ToFailed => {Running}
    case ToCancelled => {Queued, Cancelling, Running}
    case ToCancelling => {Running}
    case CascadeFailed => {Queued}
    case CascadeCancelled => {Queued}
  }

  function TargetOf(outcome: Outcome): Status
  {
    match outcome
    case ToSucceeded => Succeeded
    case ToFailed => Failed
    case ToCancelled => Cancelled
    case ToCancelling => Cancelling
    case CascadeFailed => Failed
    case CascadeCancelled => Cancelled
  }

  function Marked(rows: Rows, id: string, outcome: Outcome): Rows
  {
    Updated(rows, id, SourcesOf(outcome), TargetOf(outcome))
  }

  // ----- steps

  datatype Step =
    | Enqueue(newId: string)
    | Claim(worker: int, id: string)
    | Refuse(refused: nat)         // the provider does not support the medium
    | Defer(deferred: nat)         // no room, or the lane's breaker is open
    | Dispatch(dispatched: nat)
    | GiveUp(given: nat)           // a check fails before the execution is entered
    | Enter(entering: nat)
    | Finish(finished: nat, outcome: Outcome)
    | Concede(conceded: nat)       // the second half of the zero-rows protocol
    | Unrecorded(lost: nat)        // the database refuses the update; the row stays as it is
    | NeverStart(unstarted: nat)   // the body is cancelled before its first step
    | Crash(crashed: int)
    | Mark(marked: string, mark: Outcome) // users, cascades, orphan recovery and resumed bodies

  ghost predicate IsAt(jobs: Jobs, i: nat, stage: Stage)
  {
    i < |jobs.attempts| && jobs.attempts[i].stage == stage
  }

  function Moved(attempts: seq<Attempt>, i: nat, stage: Stage): seq<Attempt>
    requires i < |attempts|
  {
    attempts[i := attempts[i].(stage := stage)]
  }

  function Crashed(a: Attempt, worker: int): Attempt
  {
    if a.worker == worker && a.stage in {Claimed, Dispatched, Entered, Losing} then a.(stage := Gone) else a
  }

  ghost predicate Next(jobs: Jobs, step: Step, jobs': Jobs)
  {
    match step
    case Enqueue(id) =>
      id !in jobs.rows && jobs' == jobs.(rows := jobs.rows[id := Queued])
    case Claim(worker, id) =>
      && id in jobs.rows && jobs.rows[id] == Queued
      && jobs' == Jobs(Updated(jobs.rows, id, {Queued}, Running), jobs.attempts + [Attempt(worker, id, Claimed, false)])
    case Refuse(i) =>
      && IsAt(jobs, i, Claimed)
      && jobs' == Jobs(Marked(jobs.rows, jobs.attempts[i].id, ToFailed), Moved(jobs.attempts, i, Gone))
    case Defer(i) =>
      && IsAt(jobs, i, Claimed)
      && jobs' == Jobs(Updated(jobs.rows, jobs.attempts[i].id, {Running}, Queued), Moved(jobs.attempts, i, Deferred))
    case Dispatch(i) =>
      IsAt(jobs, i, Claimed) && jobs' == jobs.(attempts := Moved(jobs.attempts, i, Dispatched))
    case GiveUp(i) =>
      && IsAt(jobs, i, Dispatched)
      && jobs' == Jobs(
           Marked(jobs.rows, jobs.attempts[i].id, ToFailed),
           Moved(jobs.attempts, i, if IsIn(jobs.rows, jobs.attempts[i].id, Running) then Settled else Losing))
    case Enter(i) =>
      && IsAt(jobs, i, Dispatched)
      && jobs' == jobs.(attempts := jobs.attempts[i := jobs.attempts[i].(stage := Entered, entered := true)])
    case Finish(i, outcome) =>
      && IsAt(jobs, i, Entered) && outcome in {ToSucceeded, ToFailed, ToCancelled}
      && jobs' == Jobs(
           Marked(jobs.rows, jobs.attempts[i].id, outcome),
           Moved(jobs.attempts, i,
                 if outcome == ToCancelled || IsIn(jobs.rows, jobs.attempts[i].id, Running) then Settled else Losing))
    case Concede(i) =>
      && IsAt(jobs, i, Losing)
      && jobs' == Jobs(Marked(jobs.rows, jobs.attempts[i].id, ToCancelled), Moved(jobs.attempts, i, Settled))
    case Unrecorded(i) =>
      && i < |jobs.attempts| && jobs.attempts[i].stage in {Claimed, Dispatched, Entered, Losing}
      && jobs' == jobs.(attempts := Moved(jobs.attempts, i, Gone))
    case NeverStart(i) =>
      && IsAt(jobs, i, Dispatched)
      && jobs' == Jobs(Marked(jobs.rows, jobs.attempts[i].id, ToCancelled), Moved(jobs.attempts, i, Gone))
    case Crash(worker) =>
      jobs' == jobs.(attempts :=
        seq(|jobs.attempts|, k requires 0 <= k < |jobs.attempts| => Crashed(jobs.attempts[k], worker)))
    case Mark(id, outcome) =>
      jobs' == jobs.(rows := Marked(jobs.rows, id, outcome))
  }

  /** Some sequence of steps leads from one state to the other. */
  ghost predicate Reaches(a: Jobs, b: Jobs)
  {
    exists states, steps :: IsRun(states, steps) && states[0] == a && states[|steps|] == b
  }

  lemma ReachesItself(a: Jobs)
    ensures Reaches(a, a)
  {
    assert IsRun([a], []);
  }

  lemma ReachesOn(a: Jobs, b: Jobs, step: Step, c: Jobs)
    requires Reaches(a, b) && Next(b, step, c)
    ensures Reaches(a, c)
  {
    var states, steps :| IsRun(states, steps) && states[0] == a && states[|steps|] == b;
    var more, moves := states + [c], steps + [step];
    forall i | 0 <= i < |moves| ensures Next(more[i], moves[i], more[i + 1]) {
      if i < |steps| {
        assert Next(states[i], steps[i], states[i + 1]);
      }
    }
    assert IsRun(more, moves);
  }

  lemma ReachesThrough(a: Jobs, b: Jobs, c: Jobs)
    requires Reaches(a, b) && Reaches(b, c)
    ensures Reaches(a, c)
  {
    var states, steps :| IsRun(states, steps) && states[0] == b && states[|steps|] == c;
    for i := 0 to |steps|
      invariant Reaches(a, states[i])
    {
      assert Next(states[i], steps[i], states[i + 1]);
      ReachesOn(a, states[i], steps[i], states[i + 1]);
    }
  }

  ghost predicate IsRun(states: seq<Jobs>, steps: seq<Step>)
  {
    && |states| == |steps| + 1
    && forall i | 0 <= i < |steps| :: Next(states[i], steps[i], states[i + 1])
  }

  // ----- what every state of every run keeps

  /** Of two claims of one task at least one was put back, and a queued task has only claims that were put back. */
  ghost predicate IsSound(jobs: Jobs)
  {
    && (forall i | 0 <= i < |jobs.attempts| :: IsSoundAttempt(jobs.rows, jobs.attempts[i]))
    && forall i, j | 0 <= i < j < |jobs.attempts| && jobs.attempts[i].id == jobs.attempts[j].id ::
         jobs.attempts[i].stage == Deferred || jobs.attempts[j].stage == Deferred
  }

  ghost predicate IsSoundAttempt(rows: Rows, a: Attempt)
  {
    && a.id in rows
    && (rows[a.id] == Queued ==> a.stage == Deferred)
    && (a.stage in {Claimed, Dispatched, Deferred} ==> !a.entered)
    && (a.stage == Settled ==> IsTerminal(rows[a.id]))
  }

  lemma MarkIsSound(jobs: Jobs, id: string, sources: set<Status>, target: Status)
    requires IsSound(jobs) && target != Queued && forall s | IsTerminal(s) :: s !in sources
    ensures IsSound(jobs.(rows := Updated(jobs.rows, id, sources, target)))
  {
    forall i | 0 <= i < |jobs.attempts|
      ensures IsSoundAttempt(Updated(jobs.rows, id, sources, target), jobs.attempts[i])
    {
      assert IsSoundAttempt(jobs.rows, jobs.attempts[i]);
    }
  }

  /** Moving one attempt on, without putting the task back. */
  lemma MoveIsSound(jobs: Jobs, i: nat, a: Attempt)
    requires IsSound(jobs) && i < |jobs.attempts|
    requires a.id == jobs.attempts[i].id && jobs.attempts[i].stage != Deferred && a.stage != Deferred
    requires IsSoundAttempt(jobs.rows, a)
    ensures IsSound(jobs.(attempts := jobs.attempts[i := a]))
  {
  }

  lemma DeferIsSound(jobs: Jobs, i: nat)
    requires IsSound(jobs) && IsAt(jobs, i, Claimed)
    ensures IsSound(Jobs(Updated(jobs.rows, jobs.attempts[i].id, {Running}, Queued), Moved(jobs.attempts, i, Deferred)))
  {
    var id := jobs.attempts[i].id;
    var rows, attempts := Updated(jobs.rows, id, {Running}, Queued), Moved(jobs.attempts, i, Deferred);
    assert IsSoundAttempt(jobs.rows, jobs.attempts[i]);
    forall k | 0 <= k < |attempts| ensures IsSoundAttempt(rows, attempts[k]) {
      assert IsSoundAttempt(jobs.rows, jobs.attempts[k]);
      assert k < i && jobs.attempts[k].id == jobs.attempts[i].id ==> jobs.attempts[k].stage == Deferred;
      assert i < k && jobs.attempts[i].id == jobs.attempts[k].id ==> jobs.attempts[k].stage == Deferred;
    }
  }

  lemma ClaimIsSound(jobs: Jobs, worker: int, id: string)
    requires IsSound(jobs) && id in jobs.rows && jobs.rows[id] == Queued
    ensures IsSound(Jobs(Updated(jobs.rows, id, {Queued}, Running),
                         jobs.attempts + [Attempt(worker, id, Claimed, false)]))
  {
    var rows, attempts :=
        Updated(jobs.rows, id, {Queued}, Running), jobs.attempts + [Attempt(worker, id, Claimed, false)];
    forall k | 0 <= k < |attempts|
      ensures IsSoundAttempt(rows, attempts[k])
      ensures k < |jobs.attempts| && attempts[k].id == id ==> attempts[k].stage == Deferred
    {
      assert k < |jobs.attempts| ==> IsSoundAttempt(jobs.rows, jobs.attempts[k]);
    }
  }

  lemma CrashIsSound(jobs: Jobs, worker: int, jobs': Jobs)
    requires IsSound(jobs) && Next(jobs, Crash(worker), jobs')
    ensures IsSound(jobs')
  {
    forall k | 0 <= k < |jobs'.attempts| ensures IsSoundAttempt(jobs'.rows, jobs'.attempts[k]) {
      assert IsSoundAttempt(jobs.rows, jobs.attempts[k]);
    }
  }

  lemma EnqueueIsSound(jobs: Jobs, id: string)
    requires IsSound(jobs) && id !in jobs.rows
    ensures IsSound(jobs.(rows := jobs.rows[id := Queued]))
  {
    forall k | 0 <= k < |jobs.attempts| ensures IsSoundAttempt(jobs.rows[id := Queued], jobs.attempts[k]) {
      assert IsSoundAttempt(jobs.rows, jobs.attempts[k]);
    }
  }

  /** A guarded update by the attempt's own worker, which then moves on to `stage`. */
  lemma WriteIsSound(jobs: Jobs, i: nat, outcome: Outcome, stage: Stage)
    requires IsSound(jobs) && i < |jobs.attempts| && jobs.attempts[i].stage !in {Deferred, Settled}
    requires stage in {Gone, Losing, Settled}
    requires stage == Settled ==> outcome == ToCancelled || IsIn(jobs.rows, jobs.attempts[i].id, Running)
    requires outcome in {ToSucceeded, ToFailed, ToCancelled}
    ensures IsSound(Jobs(Marked(jobs.rows, jobs.attempts[i].id, outcome), Moved(jobs.attempts, i, stage)))
  {
    assert IsSoundAttempt(jobs.rows, jobs.attempts[i]);
    var rows := Marked(jobs.rows, jobs.attempts[i].id, outcome);
    MarkIsSound(jobs, jobs.attempts[i].id, SourcesOf(outcome), TargetOf(outcome));
    MoveIsSound(jobs.(rows := rows), i, jobs.attempts[i].(stage := stage));
  }

  lemma AdvanceIsSound(jobs: Jobs, i: nat, a: Attempt)
    requires IsSound(jobs) && i < |jobs.attempts| && jobs.attempts[i].stage !in {Deferred, Settled}
    requires a.id == jobs.attempts[i].id && a.stage in {Dispatched, Entered, Gone}
    requires a.stage == Dispatched ==> !a.entered
    ensures IsSound(jobs.(attempts := jobs.attempts[i := a]))
  {
    assert IsSoundAttempt(jobs.rows, jobs.attempts[i]);
    MoveIsSound(jobs, i, a);
  }

  lemma StepIsSound(jobs: Jobs, step: Step, jobs': Jobs)
    requires IsSound(jobs) && Next(jobs, step, jobs')
    ensures IsSound(jobs')
  {
    match step
    case Enqueue(id) =>
      EnqueueIsSound(jobs, id);
    case Claim(worker, id) =>
      ClaimIsSound(jobs, worker, id);
    case Refuse(i) =>
      WriteIsSound(jobs, i, ToFailed, Gone);
    case Defer(i) =>
      DeferIsSound(jobs, i);
    case Dispatch(i) =>
      assert IsSoundAttempt(jobs.rows, jobs.attempts[i]);
      AdvanceIsSound(jobs, i, jobs'.attempts[i]);
    case GiveUp(i) =>
      WriteIsSound(jobs, i, ToFailed, jobs'.attempts[i].stage);
    case Enter(i) =>
      AdvanceIsSound(jobs, i, jobs'.attempts[i]);
    case Finish(i, outcome) =>
      WriteIsSound(jobs, i, outcome, jobs'.attempts[i].stage);
    case Concede(i) =>
      WriteIsSound(jobs, i, ToCancelled, Settled);
    case Unrecorded(i) =>
      AdvanceIsSound(jobs, i, jobs'.attempts[i]);
    case NeverStart(i) =>
      WriteIsSound(jobs, i, ToCancelled, Gone);
    case Crash(worker) =>
      CrashIsSound(jobs, worker, jobs');
    case Mark(id, outcome) =>
      MarkIsSound(jobs, id, SourcesOf(outcome), TargetOf(outcome));
  }

  lemma {:induction false} RunIsSound(states: seq<Jobs>, steps: seq<Step>, i: nat)
    requires IsRun(states, steps) && states[0] == Jobs(map[], []) && i < |states|
    ensures IsSound(states[i])
  {
    if i > 0 {
      RunIsSound(states, steps, i - 1);
      assert Next(states[i - 1], steps[i - 1], states[i - 1 + 1]);
      StepIsSound(states[i - 1], steps[i - 1], states[i]);
    }
  }

  /** Of all the claims of a task at most one has been entered; the others were put back. */
  lemma OneClaimIsEntered(states: seq<Jobs>, steps: seq<Step>, i: nat, a: nat, b: nat)
    requires IsRun(states, steps) && states[0] == Jobs(map[], []) && i < |states|
    requires a < |states[i].attempts| && b < |states[i].attempts| && a != b
    requires states[i].attempts[a].id == states[i].attempts[b].id && states[i].attempts[a].entered
    ensures !states[i].attempts[b].entered
    ensures states[i].attempts[b].stage == Deferred
  {
    RunIsSound(states, steps, i);
    assert IsSoundAttempt(states[i].rows, states[i].attempts[a]);
    assert IsSoundAttempt(states[i].rows, states[i].attempts[b]);
  }

  /** A claim is never forgotten, keeps its task, and keeps the mark that it was entered. */
  ghost predicate IsRemembered(a: seq<Attempt>, b: seq<Attempt>, i: nat)
  {
    i < |a| && i < |b| && b[i].id == a[i].id && (a[i].entered ==> b[i].entered)
  }

  lemma StepRemembers(jobs: Jobs, step: Step, jobs': Jobs, i: nat)
    requires Next(jobs, step, jobs') && i < |jobs.attempts|
    ensures IsRemembered(jobs.attempts, jobs'.attempts, i)
  {
  }

  lemma RemembersThrough(a: seq<Attempt>, b: seq<Attempt>, c: seq<Attempt>, i: nat)
    requires IsRemembered(a, b, i) && IsRemembered(b, c, i)
    ensures IsRemembered(a, c, i)
  {
  }

  lemma StepAtRemembers(states: seq<Jobs>, steps: seq<Step>, k: nat, i: nat)
    requires IsRun(states, steps) && 0 < k < |states| && i < |states[k - 1].attempts|
    ensures IsRemembered(states[k - 1].attempts, states[k].attempts, i)
  {
    assert Next(states[k - 1], steps[k - 1], states[k - 1 + 1]);
    StepRemembers(states[k - 1], steps[k - 1], states[k], i);
  }

  lemma {:induction false} RunRemembers(states: seq<Jobs>, steps: seq<Step>, j: nat, k: nat, i: nat)
    requires IsRun(states, steps) && j <= k < |states| && i < |states[j].attempts|
    ensures IsRemembered(states[j].attempts, states[k].attempts, i)
  {
    if j < k {
      RunRemembers(states, steps, j, k - 1, i);
      StepAtRemembers(states, steps, k, i);
      RemembersThrough(states[j].attempts, states[k - 1].attempts, states[k].attempts, i);
    }
  }

  /** The task whose execution a step enters. */
  ghost predicate Enters(jobs: Jobs, step: Step, id: string)
  {
    step.Enter? && step.entering < |jobs.attempts| && jobs.attempts[step.entering].id == id
  }

  /** In every run execute_generation_task is entered at most once for each task: no two steps enter the same one. */
  lemma EnteredAtMostOnce(states: seq<Jobs>, steps: seq<Step>, j: nat, k: nat, id: string)
    requires IsRun(states, steps) && states[0] == Jobs(map[], []) && j < k < |steps|
    requires Enters(states[j], steps[j], id)
    ensures !Enters(states[k], steps[k], id)
  {
    var a := steps[j].entering;
    assert Next(states[j], steps[j], states[j + 1]);
    RunRemembers(states, steps, j + 1, k, a);
    assert Next(states[k], steps[k], states[k + 1]);
    RunIsSound(states, steps, k);
    assert IsSoundAttempt(states[k].rows, states[k].attempts[a]);
    if steps[k].Enter? {
      assert IsSoundAttempt(states[k].rows, states[k].attempts[steps[k].entering]);
    }
  }

  /** A task that has been entered is never queued again. */
  lemma EnteredStaysOut(states: seq<Jobs>, steps: seq<Step>, i: nat, a: nat)
    requires IsRun(states, steps) && states[0] == Jobs(map[], []) && i < |states|
    requires a < |states[i].attempts| && states[i].attempts[a].entered
    ensures states[i].attempts[a].id in states[i].rows && states[i].rows[states[i].attempts[a].id] != Queued
  {
    RunIsSound(states, steps, i);
    assert IsSoundAttempt(states[i].rows, states[i].attempts[a]);
  }

  /** A body that has written its outcome leaves the task in a terminal state, whatever else was going on. */
  lemma SettledIsTerminal(states: seq<Jobs>, steps: seq<Step>, i: nat, a: nat)
    requires IsRun(states, steps) && states[0] == Jobs(map[], []) && i < |states|
    requires a < |states[i].attempts| && states[i].attempts[a].stage == Settled
    ensures states[i].attempts[a].id in states[i].rows && IsTerminal(states[i].rows[states[i].attempts[a].id])
  {
    RunIsSound(states, steps, i);
    assert IsSoundAttempt(states[i].rows, states[i].attempts[a]);
  }

  /** Whatever code only takes these steps keeps all this. */
  lemma ReachingIsSound(a: Jobs, b: Jobs)
    requires IsSound(a) && Reaches(a, b)
    ensures IsSound(b)
  {
    var states, steps :| IsRun(states, steps) && states[0] == a && states[|steps|] == b;
    for i := 0 to |steps|
      invariant IsSound(states[i])
    {
      assert Next(states[i], steps[i], states[i + 1]);
      StepIsSound(states[i], steps[i], states[i + 1]);
    }
  }

  // ----- what never changes back

  /** Where a row may go in any number of steps. */
  predicate MayBecome(s: Status, t: Status)
  {
    if IsTerminal(s) then t == s
    else if s == Cancelling then t == Cancelling || t == Cancelled
    else true
  }

  lemma StepIsMonotone(jobs: Jobs, step: Step, jobs': Jobs, id: string)
    requires Next(jobs, step, jobs') && id in jobs.rows
    ensures id in jobs'.rows && MayBecome(jobs.rows[id], jobs'.rows[id])
  {
  }

  /**
   Terminal states are final, and a task whose cancellation has been requested while it ran can only end cancelled.
   */
  lemma {:induction false} RowsAreMonotone(states: seq<Jobs>, steps: seq<Step>, i: nat, j: nat, id: string)
    requires IsRun(states, steps) && i <= j < |states| && id in states[i].rows
    ensures id in states[j].rows && MayBecome(states[i].rows[id], states[j].rows[id])
  {
    if i < j {
      RowsAreMonotone(states, steps, i, j - 1, id);
      assert Next(states[j - 1], steps[j - 1], states[j - 1 + 1]);
      StepIsMonotone(states[j - 1], steps[j - 1], states[j], id);
    }
  }
}
