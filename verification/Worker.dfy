/** The worker's own loops: claiming for one medium, recovering orphans, and lining up a batch of resumed videos. */
module Worker {
  import opened Wrappers
  import opened SlotTable
  import opened TaskRuns
  import LaneRuns
  import Sets

  /** What a task row says besides its status; `resolved` is the provider the resolver finds for it now. */
  datatype Info = Info(
    media: string, persisted: Option<string>, resolved: string, job: Option<string>, queuedAt: int,
    dependsOn: Option<string>)

  /** Capacities as configured, lanes health has slowed down, and lanes whose breaker is open. */
  datatype Limits = Limits(capacity: map<Lane, int>, reduced: map<Lane, int>, open: set<Lane>)

  function CapacityOf(limits: Limits, lane: Lane): int
  {
    if lane in limits.capacity then limits.capacity[lane] else 0
  }

  /** Health only ever tightens; a lane that is not supported keeps its own value, and only an open breaker gives 0. */
  function EffectiveOf(limits: Limits, lane: Lane): (r: int)
    ensures CapacityOf(limits, lane) > 0 ==> 0 <= r <= CapacityOf(limits, lane) && (r == 0 <==> lane in limits.open)
    ensures CapacityOf(limits, lane) <= 0 || (lane !in limits.open && lane !in limits.reduced) ==>
            r == CapacityOf(limits, lane)
    ensures lane in limits.reduced && 1 <= limits.reduced[lane] <= CapacityOf(limits, lane) && lane !in limits.open ==>
            r == limits.reduced[lane]
    ensures lane in limits.reduced && limits.reduced[lane] > CapacityOf(limits, lane) > 0 && lane !in limits.open ==>
            r == CapacityOf(limits, lane)
  {
    var base := CapacityOf(limits, lane);
    if base <= 0 then base
    else if lane in limits.open then 0
    else if lane in limits.reduced && 1 <= limits.reduced[lane] <= base then limits.reduced[lane]
    else base
  }

  /** No task of this provider may be claimed now: its breaker is open or its lane is full. */
  predicate IsBlocked(slots: Slots, limits: Limits, lane: Lane)
  {
    CapacityOf(limits, lane) > 0 && EffectiveOf(limits, lane) <= |BucketOf(slots, lane)|
  }

  predicate IsClaimable(rows: Rows, infos: map<string, Info>, media: string, blocked: set<string>, id: string)
  {
    && id in rows && rows[id] == Queued && id in infos && infos[id].media == media
    && (infos[id].persisted.None? || infos[id].persisted.value !in blocked)
    && (infos[id].dependsOn.None? || IsIn(rows, infos[id].dependsOn.value, Succeeded))
  }

  function LaneOf(info: Info): Lane
  {
    Lane(info.resolved, info.media)
  }

  datatype Verdict = Skip | Cancel | Fail | Resume(provider: string)

  /** What recovery does with a task that was left running or cancelling. */
  function Judge(status: Status, info: Info, active: bool, unresumable: set<string>): Verdict
  {
    var provider := if info.persisted.Some? then info.persisted.value else info.resolved;
    if active then Skip
    else if status == Cancelling then Cancel
    else if info.media != "video" then Fail
    else if provider in unresumable || info.job.None? || info.job.value == "" then Fail
    else Resume(provider)
  }

  class GenerationWorker {
    const id: int
    const table: Table
    var rows: Rows
    var infos: map<string, Info>
    ghost var attempts: seq<Attempt>

    ghost function State(): Jobs
      reads this
    {
      Jobs(rows, attempts)
    }

    ghost predicate Valid()
      reads this, table
    {
      table.Valid() && rows.Keys <= infos.Keys
    }

    constructor (id: int, rows: Rows, infos: map<string, Info>)
      requires rows.Keys <= infos.Keys
      ensures Valid() && fresh(table) && this.rows == rows && this.infos == infos && table.slots == map[]
    {
      this.id := id;
      this.rows := rows;
      this.infos := infos;
      table := new Table();
      attempts := [];
    }

    /**
     The oldest queued task of the medium whose provider is not on the blacklist and whose dependency, if any, has
     succeeded; it is set running in one update.
     */
    method ClaimNext(media: string, blocked: set<string>) returns (task: Option<string>)
      requires Valid()
      modifies this`rows, this`attempts
      ensures Valid()
      ensures task.None? ==> State() == old(State()) && forall t :: !IsClaimable(rows, infos, media, blocked, t)
      ensures task.Some? ==>
                && IsClaimable(old(rows), infos, media, blocked, task.value)
                && (forall t | IsClaimable(old(rows), infos, media, blocked, t) ::
                    infos[task.value].queuedAt <= infos[t].queuedAt)
                && rows == old(rows)[task.value := Running]
                && attempts == old(attempts) + [Attempt(id, task.value, Claimed, false)]
    {
      task := None;
      var rest := rows.Keys;
      while rest != {}
        invariant rest <= rows.Keys
        invariant task.Some? ==> IsClaimable(rows, infos, media, blocked, task.value)
        invariant forall t | t !in rest && IsClaimable(rows, infos, media, blocked, t) ::
            task.Some? && infos[task.value].queuedAt <= infos[t].queuedAt
      {
        var t :| t in rest;
        if IsClaimable(rows, infos, media, blocked, t)
            && (task.None? || infos[t].queuedAt < infos[task.value].queuedAt) {
          task := Some(t);
        }
        rest := rest - {t};
      }
      if task.Some? {
        rows := rows[task.value := Running];
        attempts := attempts + [Attempt(id, task.value, Claimed, false)];
      }
    }

    /** The blacklist of one claim: breakers that are open, and lanes that are full. */
    method PoolFullProviders(media: string, limits: Limits) returns (blocked: set<string>)
      requires Valid()
      ensures IsBlacklist(blocked, table.slots, limits, media)
    {
      blocked := set lane | lane in limits.open && lane.media == media && CapacityOf(limits, lane) > 0 :: lane.provider;
      ghost var open := blocked;
      var occupied := table.OccupiedProviders(media);
      var rest := occupied;
      while rest != {}
        invariant rest <= occupied
        invariant forall p :: p in blocked <==>
            p in open || (p in occupied && p !in rest && IsBlocked(table.slots, limits, Lane(p, media)))
      {
        var p :| p in rest;
        if CapacityOf(limits, Lane(p, media)) > 0 {
          var room := table.HasRoom(Lane(p, media), EffectiveOf(limits, Lane(p, media)));
          if EffectiveOf(limits, Lane(p, media)) <= 0 || !room {
            blocked := blocked + {p};
          }
        }
        rest := rest - {p};
      }
      forall p ensures p in open <==> Lane(p, media) in limits.open && CapacityOf(limits, Lane(p, media)) > 0 {
      }
    }

    /**
     Puts a claimed task back, with its provider brought up to date so that the next query can leave it out. Either
     update may be refused by the database, which is only logged.
     */
    method DeferClaimed(task: string, refreshed: bool, requeued: bool, ghost attempt: nat)
      requires Valid() && task in infos
      requires IsAt(State(), attempt, Claimed) && attempts[attempt].id == task
      modifies this
      ensures Valid() && Next(old(State()), if requeued then Defer(attempt) else Unrecorded(attempt), State())
      ensures rows == if requeued then Updated(old(rows), task, {Running}, Queued) else old(rows)
      ensures infos == Refreshed(old(infos), task, refreshed)
    {
      infos := Refreshed(infos, task, refreshed);
      if requeued {
        rows := Updated(rows, task, {Running}, Queued);
      }
      attempts := Moved(attempts, attempt, if requeued then Deferred else Gone);
    }

    method FailUnsupported(task: string, ghost attempt: nat)
      requires Valid() && IsAt(State(), attempt, Claimed) && attempts[attempt].id == task
      modifies this`rows, this`attempts
      ensures Valid() && Next(old(State()), Refuse(attempt), State())
      ensures rows == Marked(old(rows), task, ToFailed)
    {
      rows := Marked(rows, task, ToFailed);
      attempts := Moved(attempts, attempt, Gone);
    }

    method DispatchClaimed(task: string, lane: Lane, handle: int, ghost attempt: nat)
      requires Valid() && IsAt(State(), attempt, Claimed) && attempts[attempt].id == task
      modifies this`attempts, table
      ensures Valid() && Next(old(State()), Dispatch(attempt), State())
      ensures IsChangedAt(old(table.slots), table.slots, lane,
              BucketOf(old(table.slots), lane)[task := Occupant(handle, false)])
    {
      attempts := Moved(attempts, attempt, Dispatched);
      table.Register(lane, task, handle, false);
    }

    /**
     Claims until nothing claimable is left, on any blacklist, or a task has to be put back. Every claimed task is
     registered in its lane, failed because its provider does not support the medium, or queued again; no lane is filled
     past its effective capacity; and a task that was put back with its provider refreshed cannot be claimed by the very
     next query. When the database refuses to queue it again, it stays running without a body.
     */
    method ClaimLane(media: string, limits: Limits, firstHandle: int, refreshed: bool, requeued: bool)
      returns (deferred: Option<string>)
      requires Valid()
      modifies this, table
      ensures Valid() && Reaches(old(State()), State())
      ensures deferred.None? ==> infos == old(infos)
      ensures deferred.None? ==>
                forall blocked: set<string>, t | IsBlacklist(blocked, table.slots, limits, media) ::
                  !IsClaimable(rows, infos, media, blocked, t)
      ensures deferred.None? ==>
                && IsProgress(old(rows), rows, old(table.slots), table.slots, infos, limits)
                && AreInTurn(old(rows), rows, old(table.slots), table.slots, infos, limits, media)
      ensures deferred.Some? ==>
                exists before: Rows ::
                  && IsProgress(old(rows), before, old(table.slots), table.slots, infos, limits)
                  && AreInTurn(old(rows), before, old(table.slots), table.slots, old(infos), limits, media)
                  && rows == (if requeued then before else before[deferred.value := Running])
                  && IsPutBack(deferred.value, before, table.slots, old(infos), infos, limits, refreshed)
    {
      var handle := firstHandle;
      ReachesItself(State());
      while true
        invariant Valid() && Reaches(old(State()), State()) && infos == old(infos)
        invariant IsProgress(old(rows), rows, old(table.slots), table.slots, infos, limits)
        invariant AreInTurn(old(rows), rows, old(table.slots), table.slots, infos, limits, media)
        decreases |QueuedIn(rows)|
      {
        var poolFull := PoolFullProviders(media, limits);
        ghost var before, progress, slots := State(), rows, table.slots;
        var claimed := ClaimNext(media, poolFull);
        if claimed.None? {
          NothingClaimable(rows, infos, table.slots, limits, media, poolFull);
          return None;
        }
        ReachesOn(old(State()), before, TaskRuns.Claim(id, claimed.value), State());
        ghost var held := State();
        ghost var step;
        var putBack;
        putBack, step :=
          RouteClaimed(claimed.value, limits, handle, refreshed, requeued, old(rows), progress, old(table.slots));
        ReachesOn(old(State()), held, step, State());
        if putBack {
          return Some(claimed.value);
        }
        OneMoreInTurn(old(rows), progress, rows, old(table.slots), slots, table.slots, infos, limits, media, poolFull,
                      claimed.value);
        handle := handle + 1;
      }
    }

    /** Decides about the task claimed last: fail it, put it back, or let it run. */
    method RouteClaimed(
      task: string, limits: Limits, handle: int, refreshed: bool, requeued: bool,
      ghost rows0: Rows, ghost before: Rows, ghost slots0: Slots)
      returns (putBack: bool, ghost step: Step)
      requires Valid() && attempts != [] && attempts[|attempts| - 1] == Attempt(id, task, Claimed, false)
      requires IsIn(before, task, Queued) && rows == before[task := Running]
      requires IsProgress(rows0, before, slots0, table.slots, infos, limits)
      modifies this, table
      ensures Valid() && Next(old(State()), step, State())
      ensures !putBack ==> infos == old(infos) && |QueuedIn(rows)| < |QueuedIn(before)|
      ensures !putBack ==> rows == before[task := Failed] || rows == before[task := Running]
      ensures Grows(old(table.slots), table.slots) && (putBack ==> table.slots == old(table.slots))
      ensures !putBack ==> IsProgress(rows0, rows, slots0, table.slots, infos, limits)
      ensures putBack ==> rows == (if requeued then before else before[task := Running])
      ensures putBack ==> IsProgress(rows0, before, slots0, table.slots, infos, limits)
      ensures putBack ==> IsPutBack(task, before, table.slots, old(infos), infos, limits, refreshed)
    {
      var lane := LaneOf(infos[task]);
      ghost var attempt := |attempts| - 1;
      if CapacityOf(limits, lane) <= 0 {
        FailUnsupported(task, attempt);
        FailureIsProgress(rows0, before, slots0, table.slots, infos, limits, task);
        return false, Refuse(attempt);
      }
      var room := table.HasRoom(lane, EffectiveOf(limits, lane));
      if EffectiveOf(limits, lane) <= 0 || !room {
        DeferClaimed(task, refreshed, requeued, attempt);
        PuttingBackIsProgress(rows0, before, slots0, table.slots, old(infos), limits, task, refreshed);
        return true, if requeued then Defer(attempt) else Unrecorded(attempt);
      }
      DispatchClaimed(task, lane, handle, attempt);
      DispatchIsProgress(rows0, before, slots0, old(table.slots), table.slots, infos, limits, task, handle);
      DispatchGrows(old(table.slots), table.slots, lane, task, Occupant(handle, false));
      return false, Dispatch(attempt);
    }

    /** mark_failed, and mark_cancelled when that touched no row. */
    method FailOrConcede(task: string)
      requires Valid()
      modifies this`rows
      ensures Valid() && rows == FailedOrCancelled(old(rows), task) && attempts == old(attempts)
      ensures AreFailed(old(rows), rows, {task})
      ensures Reaches(old(State()), State())
    {
      ReachesItself(State());
      var hit := IsIn(rows, task, Running);
      rows := Marked(rows, task, ToFailed);
      ReachesOn(old(State()), old(State()), Mark(task, ToFailed), State());
      if !hit {
        ghost var between := State();
        rows := Marked(rows, task, ToCancelled);
        ReachesOn(old(State()), between, Mark(task, ToCancelled), State());
      }
    }

    /**
     The body of a dispatched task. A failing check of its assets ends it before the execution is entered; otherwise it
     enters the execution and writes the outcome, and when that finds the row no longer running it concedes to the
     cancellation. The row ends terminal, unless the database refuses one of the two updates: then it stays as it was.
     */
    method ProcessTask(task: string, passes: bool, result: Outcome, recorded: bool, conceded: bool, ghost attempt: nat)
      requires Valid() && IsAt(State(), attempt, Dispatched) && attempts[attempt].id == task && task in rows
      requires !attempts[attempt].entered && result in {ToSucceeded, ToFailed, ToCancelled}
      modifies this`rows, this`attempts
      ensures Valid() && Reaches(old(State()), State())
      ensures attempt < |attempts| && (attempts[attempt].entered <==> passes)
      ensures var outcome := if passes then result else ToFailed;
              var refused := !recorded || (IsLosing(old(rows[task]), outcome) && !conceded);
              if refused then rows == old(rows) && IsAt(State(), attempt, Gone)
              else && rows == old(rows)[task := LeftAs(old(rows[task]), outcome)] && IsTerminal(rows[task])
                   && IsAt(State(), attempt, Settled)
                   && (old(rows[task]) == Running ==> rows[task] == EndFor(passes, result))
                   && (old(rows[task]) == Queued || old(rows[task]) == Cancelling ==> rows[task] == Cancelled)
                   && (IsTerminal(old(rows[task])) ==> rows[task] == old(rows[task]))
    {
      ReachesItself(State());
      if passes {
        attempts := attempts[attempt := attempts[attempt].(stage := Entered, entered := true)];
        ReachesOn(old(State()), old(State()), Enter(attempt), State());
      }
      ghost var before := State();
      WriteOutcome(task, passes, if passes then result else ToFailed, recorded, conceded, attempt);
      ReachesThrough(old(State()), before, State());
    }

    /** The end of a body, whether it has entered the execution or given up before. */
    method WriteOutcome(
      task: string, entered: bool, outcome: Outcome, recorded: bool, conceded: bool, ghost attempt: nat)
      requires Valid() && IsAt(State(), attempt, if entered then Entered else Dispatched)
      requires attempts[attempt].id == task && task in rows
      requires if entered then outcome in {ToSucceeded, ToFailed, ToCancelled} else outcome == ToFailed
      modifies this`rows, this`attempts
      ensures Valid() && Reaches(old(State()), State())
      ensures var refused := !recorded || (IsLosing(old(rows[task]), outcome) && !conceded);
              && attempts == Moved(old(attempts), attempt, if refused then Gone else Settled)
              && rows == if refused then old(rows) else old(rows)[task := LeftAs(old(rows[task]), outcome)]
    {
      ReachesItself(State());
      if recorded {
        var losing := Record(task, entered, outcome, attempt);
        if losing {
          ghost var between := State();
          Yield(task, conceded, attempt);
          ReachesThrough(old(State()), between, State());
        }
      } else {
        attempts := Moved(attempts, attempt, Gone);
        ReachesOn(old(State()), old(State()), Unrecorded(attempt), State());
      }
    }

    /** The first update of the zero-rows protocol; it loses when it touches no row. */
    method Record(task: string, entered: bool, outcome: Outcome, ghost attempt: nat) returns (losing: bool)
      requires Valid() && IsAt(State(), attempt, if entered then Entered else Dispatched)
      requires attempts[attempt].id == task && task in rows
      requires if entered then outcome in {ToSucceeded, ToFailed, ToCancelled} else outcome == ToFailed
      modifies this`rows, this`attempts
      ensures Valid() && Reaches(old(State()), State())
      ensures losing == IsLosing(old(rows[task]), outcome)
      ensures attempts == Moved(old(attempts), attempt, if losing then Losing else Settled)
      ensures rows == if losing then old(rows) else old(rows)[task := LeftAs(old(rows[task]), outcome)]
    {
      ReachesItself(State());
      losing := IsLosing(rows[task], outcome);
      rows := Marked(rows, task, outcome);
      attempts := Moved(attempts, attempt, if losing then Losing else Settled);
      ReachesOn(old(State()), old(State()), if entered then Finish(attempt, outcome) else GiveUp(attempt), State());
    }

    /** The second half of the zero-rows protocol, which the database may refuse as well. */
    method Yield(task: string, conceded: bool, ghost attempt: nat)
      requires Valid() && IsAt(State(), attempt, Losing) && attempts[attempt].id == task && task in rows
      modifies this`rows, this`attempts
      ensures Valid() && Reaches(old(State()), State())
      ensures rows == if conceded then Marked(old(rows), task, ToCancelled) else old(rows)
      ensures attempts == Moved(old(attempts), attempt, if conceded then Settled else Gone)
    {
      ReachesItself(State());
      if conceded {
        rows := Marked(rows, task, ToCancelled);
      }
      attempts := Moved(attempts, attempt, if conceded then Settled else Gone);
      ReachesOn(old(State()), old(State()), if conceded then Concede(attempt) else Unrecorded(attempt), State());
    }

    /**
     A user's cancel: a queued task ends at once and with it everything that waits for it, however indirectly; what
     runs is only asked to stop, and what waits for that is left alone until it has.
     */
    method CancelTask(task: string) returns (signalled: set<string>)
      requires Valid() && task in rows
      modifies this`rows
      ensures Valid() && Reaches(old(State()), State()) && rows.Keys == old(rows.Keys)
      ensures forall t | t in rows :: rows[t] ==
                if IsBelow(old(rows), infos, task, t) then AskedToStop(old(rows[t])) else old(rows[t])
      ensures forall t :: t in signalled <==>
                t in rows && old(rows[t]) == Running && IsBelow(old(rows), infos, task, t)
    {
      signalled := CancelFrom(task);
      ChainsAreFollowed(old(rows), rows, infos, task);
    }

    /** Cancels by the state of the task, and goes on to its dependents when that ended it. */
    method CancelFrom(task: string) returns (signalled: set<string>)
      requires Valid() && task in rows
      modifies this`rows
      ensures Valid() && Reaches(old(State()), State()) && attempts == old(attempts)
      ensures IsCascade(old(rows), rows, infos, task) && IsClosed(old(rows), rows, infos) && IsDone(rows[task])
      ensures signalled == NewlyCancelling(old(rows), rows)
      decreases |QueuedIn(rows)|, 2
    {
      ReachesItself(State());
      ChainOfOne(rows, infos, task);
      signalled := {};
      match rows[task]
      case Queued =>
        signalled := CancelQueued(task);
      case Running =>
        signalled := {task};
        rows := Marked(rows, task, ToCancelling);
        ReachesOn(old(State()), old(State()), Mark(task, ToCancelling), State());
      case _ =>
    }

    method CancelQueued(task: string) returns (signalled: set<string>)
      requires Valid() && IsIn(rows, task, Queued)
      modifies this`rows
      ensures Valid() && Reaches(old(State()), State()) && attempts == old(attempts)
      ensures IsCascade(old(rows), rows, infos, task) && IsClosed(old(rows), rows, infos) && IsDone(rows[task])
      ensures signalled == NewlyCancelling(old(rows), rows)
      decreases |QueuedIn(rows)|, 1
    {
      ReachesItself(State());
      ghost var rows0 := rows;
      rows := Marked(rows, task, ToCancelled);
      ReachesOn(old(State()), old(State()), Mark(task, ToCancelled), State());
      signalled := {};
      UnderwayBegins(rows0, infos, task);
      var rest := set d | d in rows && infos[d].dependsOn == Some(task);
      while rest != {}
        invariant Valid() && Reaches(old(State()), State()) && attempts == old(attempts)
        invariant IsUnderway(rows0, rows, infos, task, rest)
        invariant signalled == NewlyCancelling(rows0, rows)
        decreases rest
      {
        var d :| d in rest;
        ghost var before := State();
        var more := CancelDependent(task, d, rest, rows0);
        ReachesThrough(old(State()), before, State());
        signalled := signalled + more;
        rest := rest - {d};
      }
      UnderwayEnds(rows0, rows, infos, task);
    }

    /** One of the dependents of a cancelled task that are still to come. */
    method CancelDependent(task: string, d: string, ghost rest: set<string>, ghost rows0: Rows)
      returns (signalled: set<string>)
      requires Valid() && IsUnderway(rows0, rows, infos, task, rest) && d in rest
      modifies this`rows
      ensures Valid() && Reaches(old(State()), State()) && attempts == old(attempts)
      ensures IsUnderway(rows0, rows, infos, task, rest - {d})
      ensures NewlyCancelling(rows0, rows) == NewlyCancelling(rows0, old(rows)) + signalled
      decreases |QueuedIn(rows0)|, 0
    {
      UnderwayIsShrinking(rows0, rows, infos, task, rest);
      assert IsDependent(rows, infos, task, d);
      signalled := CancelFrom(d);
      CascadeOn(rows0, old(rows), rows, infos, task, d, rest);
    }

    /**
     Recovery after a restart or a takeover: what this worker still runs is left alone, cancellations are completed, and
     a running task is failed unless its provider's job can be taken up again. Nothing is queued again.
     */
    method ScanOrphans(unresumable: set<string>) returns (resumable: map<string, set<string>>)
      requires Valid()
      modifies this`rows
      ensures Valid() && Reaches(old(State()), State())
      ensures rows.Keys == old(rows.Keys)
      ensures forall t | t in rows ::
                rows[t] == if IsActive(table.slots, t) then old(rows[t])
                           else if old(rows[t]) == Cancelling then Cancelled
                           else if old(rows[t]) == Running && !CanBeTakenUp(infos[t], unresumable) then Failed
                           else old(rows[t])
      ensures forall p, t :: IsListed(resumable, p, t) <==>
                && t in rows && old(rows[t]) == Running && !IsActive(table.slots, t)
                && CanBeTakenUp(infos[t], unresumable) && p == TakenUpBy(infos[t])
    {
      var orphans := set t | t in rows && IsOrphan(rows[t]);
      var active := table.ActiveTaskIds();
      resumable := map[];
      var rest := orphans;
      ReachesItself(State());
      while rest != {}
        invariant Valid() && Reaches(old(State()), State()) && attempts == old(attempts)
        invariant rest <= orphans && rows.Keys == old(rows.Keys)
        invariant forall t | t in rows && (t !in orphans || t in rest) :: rows[t] == old(rows[t])
        invariant forall t | t in orphans && t !in rest ::
            rows[t] == Recovered(old(rows[t]), Judge(old(rows[t]), infos[t], t in active, unresumable))
        invariant forall p, t :: IsListed(resumable, p, t) <==>
            t in orphans && t !in rest && Judge(old(rows[t]), infos[t], t in active, unresumable) == Resume(p)
      {
        var task :| task in rest;
        rest := rest - {task};
        var verdict := Judge(rows[task], infos[task], task in active, unresumable);
        ghost var before := State();
        Recover(task, verdict);
        ReachesThrough(old(State()), before, State());
        if verdict.Resume? {
          resumable := Listed(resumable, verdict.provider, task);
        }
      }
      forall t | t in rows ensures IsJudged(old(rows[t]), infos[t], t in active, unresumable) {
        Judgement(old(rows[t]), infos[t], t in active, unresumable);
      }
    }

    method Recover(task: string, verdict: Verdict)
      requires Valid() && task in rows && IsOrphan(rows[task]) && (verdict.Fail? ==> rows[task] == Running)
      modifies this`rows
      ensures Valid() && rows == old(rows)[task := Recovered(old(rows[task]), verdict)] && attempts == old(attempts)
      ensures Reaches(old(State()), State())
    {
      ReachesItself(State());
      match verdict
      case Skip =>
      case Resume(_) =>
      case Cancel =>
        rows := Marked(rows, task, ToCancelled);
        ReachesOn(old(State()), old(State()), Mark(task, ToCancelled), State());
      case Fail =>
        FailOrConcede(task);
    }

    method FailBatch(batch: set<string>)
      requires Valid()
      modifies this`rows
      ensures Valid() && Reaches(old(State()), State()) && AreFailed(old(rows), rows, batch)
    {
      var rest := batch;
      ReachesItself(State());
      while rest != {}
        invariant Valid() && Reaches(old(State()), State()) && attempts == old(attempts)
        invariant rest <= batch && AreFailed(old(rows), rows, batch - rest)
      {
        var task :| task in rest;
        ghost var before := State();
        FailOrConcede(task);
        ReachesThrough(old(State()), before, State());
        OneMoreFailed(old(rows), before.rows, batch - rest, task);
        assert batch - (rest - {task}) == batch - rest + {task};
        rest := rest - {task};
      }
      assert batch - rest == batch;
    }

    /**
     Prepares a batch of resumed videos of one provider. Without capacity the limits are loaded again, which may fail;
     still without, the batch is failed. Otherwise all of it occupies the lane, waiting, before the first one can run,
     or nothing does when the worker is stopping.
     */
    method LineUp(
      provider: string, batch: set<string>, limits: Limits, reloaded: Option<Limits>, stopping: bool, firstHandle: int)
      returns (capacity: int)
      requires Valid()
      modifies this`rows, table
      ensures Valid() && Reaches(old(State()), State())
      ensures capacity == CapacityAtLast(limits, reloaded, Lane(provider, "video"))
      ensures capacity <= 0 ==> table.slots == old(table.slots) && AreFailed(old(rows), rows, batch)
      ensures capacity > 0 ==>
                && rows == old(rows)
                && IsLinedUp(old(table.slots), table.slots, Lane(provider, "video"), if stopping then {} else batch)
    {
      var lane := Lane(provider, "video");
      capacity := CapacityOf(limits, lane);
      if capacity <= 0 && reloaded.Some? {
        capacity := CapacityOf(reloaded.value, lane);
      }
      if capacity <= 0 {
        FailBatch(batch);
        return;
      }
      if stopping {
        ReachesItself(State());
        IsLinedUpNone(table.slots, lane);
        return;
      }
      var rest := batch;
      var handle := firstHandle;
      ReachesItself(State());
      IsLinedUpNone(table.slots, lane);
      while rest != {}
        invariant Valid() && State() == old(State()) && rest <= batch
        invariant IsLinedUp(old(table.slots), table.slots, lane, batch - rest)
      {
        var task :| task in rest;
        table.Register(lane, task, handle, true);
        handle := handle + 1;
        assert batch - (rest - {task}) == batch - rest + {task};
        rest := rest - {task};
      }
      assert batch - rest == batch;
    }
  }

  /** The capacity a batch is lined up with: what is known, or what a successful reload says when that is nothing. */
  function CapacityAtLast(limits: Limits, reloaded: Option<Limits>, lane: Lane): int
  {
    if CapacityOf(limits, lane) <= 0 && reloaded.Some? then CapacityOf(reloaded.value, lane)
    else CapacityOf(limits, lane)
  }

  /** The tasks of the batch are failed if they were running and cancelled otherwise; no other task is touched. */
  ghost predicate AreFailed(before: Rows, after: Rows, batch: set<string>)
  {
    && after.Keys == before.Keys
    && forall t | t in before ::
         after[t] == if t !in batch || IsTerminal(before[t]) then before[t]
                     else if before[t] == Running then Failed
                     else Cancelled
  }

  function Listed(resumable: map<string, set<string>>, provider: string, task: string): (r: map<string, set<string>>)
    ensures forall p, t :: IsListed(r, p, t) <==> IsListed(resumable, p, t) || (p == provider && t == task)
  {
    resumable[provider := (if provider in resumable then resumable[provider] else {}) + {task}]
  }

  /** The update for this outcome touches no row that is in state `s`, and the body has to concede. */
  predicate IsLosing(s: Status, outcome: Outcome)
  {
    outcome != ToCancelled && s != Running
  }

  // ----- cancelling along dependencies

  /** What a cancel makes of a task in state `s`. */
  function AskedToStop(s: Status): Status
  {
    match s
    case Queued => Cancelled
    case Running => Cancelling
    case _ => s
  }

  predicate IsDone(s: Status)
  {
    s != Queued && s != Running
  }

  /** Each task of the chain waits for the one before it, and all but the last are queued. */
  ghost predicate IsChain(rows: Rows, infos: map<string, Info>, chain: seq<string>)
  {
    && (forall t | t in chain :: t in rows && t in infos)
    && forall i | 0 <= i < |chain| - 1 :: IsLink(rows, infos, chain[i], chain[i + 1])
  }

  /** `d` waits for the queued task `t`. */
  predicate IsLink(rows: Rows, infos: map<string, Info>, t: string, d: string)
  {
    IsIn(rows, t, Queued) && d in infos && infos[d].dependsOn == Some(t)
  }

  /** A chain of queued tasks leads from `root` to `t`. */
  ghost predicate IsBelow(rows: Rows, infos: map<string, Info>, root: string, t: string)
  {
    exists chain :: chain != [] && chain[0] == root && chain[|chain| - 1] == t && IsChain(rows, infos, chain)
  }

  lemma ChainOfOne(rows: Rows, infos: map<string, Info>, task: string)
    requires task in rows && task in infos
    ensures IsBelow(rows, infos, task, task)
  {
    assert IsChain(rows, infos, [task]);
  }

  /** Nothing has happened but that tasks below `root` were asked to stop. */
  ghost predicate IsCascade(before: Rows, after: Rows, infos: map<string, Info>, root: string)
  {
    && after.Keys == before.Keys <= infos.Keys
    && forall t | t in before && after[t] != before[t] ::
         after[t] == AskedToStop(before[t]) && IsBelow(before, infos, root, t)
  }

  /** A task that has been ended here has no dependent left that could still be stopped. */
  ghost predicate IsClosed(before: Rows, after: Rows, infos: map<string, Info>)
  {
    forall t, d | EndedHere(before, after, t) && IsDependent(after, infos, t, d) :: IsDone(after[d])
  }

  ghost predicate IsClosedBut(before: Rows, after: Rows, infos: map<string, Info>, task: string, rest: set<string>)
  {
    forall t, d | EndedHere(before, after, t) && IsDependent(after, infos, t, d) && (t != task || d !in rest) ::
      IsDone(after[d])
  }

  predicate EndedHere(before: Rows, after: Rows, t: string)
  {
    IsIn(before, t, Queued) && !IsIn(after, t, Queued)
  }

  predicate IsDependent(rows: Rows, infos: map<string, Info>, t: string, d: string)
  {
    d in rows && d in infos && infos[d].dependsOn == Some(t)
  }

  function NewlyCancelling(before: Rows, after: Rows): set<string>
  {
    set t | t in after && IsIn(before, t, Running) && after[t] == Cancelling
  }

  /** What is below a dependent in a later state was below the task at the start. */
  lemma BelowDependent(
    before: Rows, between: Rows, infos: map<string, Info>, task: string, d: string, t: string)
    requires QueuedIn(between) <= QueuedIn(before) && between.Keys == before.Keys
    requires IsIn(before, task, Queued) && task in infos && IsDependent(between, infos, task, d)
    requires IsBelow(between, infos, d, t)
    ensures IsBelow(before, infos, task, t)
  {
    var chain :| chain != [] && chain[0] == d && chain[|chain| - 1] == t && IsChain(between, infos, chain);
    var longer := [task] + chain;
    forall i | 0 <= i < |longer| - 1 ensures IsLink(before, infos, longer[i], longer[i + 1]) {
      if i > 0 {
        assert IsLink(between, infos, chain[i - 1], chain[i - 1 + 1]) && chain[i - 1] in QueuedIn(between);
      }
    }
    assert IsChain(before, infos, longer);
  }

  /** The queued task has been cancelled, and with it what is below its dependents, apart from those in `rest`. */
  ghost predicate IsUnderway(before: Rows, now: Rows, infos: map<string, Info>, task: string, rest: set<string>)
  {
    && IsIn(before, task, Queued)
    && QueuedIn(now) <= QueuedIn(before[task := Cancelled])
    && IsCascade(before, now, infos, task) && IsDone(now[task])
    && IsClosedBut(before, now, infos, task, rest)
    && forall d | d in rest :: IsDependent(now, infos, task, d)
  }

  lemma UnderwayBegins(before: Rows, infos: map<string, Info>, task: string)
    requires IsIn(before, task, Queued) && before.Keys <= infos.Keys
    ensures var now := before[task := Cancelled];
            && IsUnderway(before, now, infos, task, set d | d in now && infos[d].dependsOn == Some(task))
            && NewlyCancelling(before, now) == {}
  {
    ChainOfOne(before, infos, task);
  }

  lemma UnderwayEnds(before: Rows, now: Rows, infos: map<string, Info>, task: string)
    requires IsUnderway(before, now, infos, task, {})
    ensures IsCascade(before, now, infos, task) && IsClosed(before, now, infos) && IsDone(now[task])
  {
  }

  lemma UnderwayIsShrinking(before: Rows, now: Rows, infos: map<string, Info>, task: string, rest: set<string>)
    requires IsUnderway(before, now, infos, task, rest)
    ensures |QueuedIn(now)| < |QueuedIn(before)|
  {
    OneLessQueued(before, task, Cancelled);
    Sets.SubsetSize(QueuedIn(now), QueuedIn(before[task := Cancelled]));
  }

  /** One more dependent has been cancelled with everything below it. */
  lemma CascadeOn(
    before: Rows, between: Rows, after: Rows, infos: map<string, Info>, task: string, d: string, rest: set<string>)
    requires IsUnderway(before, between, infos, task, rest) && d in rest
    requires IsCascade(between, after, infos, d) && IsClosed(between, after, infos) && IsDone(after[d])
    ensures IsUnderway(before, after, infos, task, rest - {d})
    ensures NewlyCancelling(before, after) == NewlyCancelling(before, between) + NewlyCancelling(between, after)
  {
    assert IsDependent(between, infos, task, d);
    forall t | t in before && after[t] != before[t]
      ensures after[t] == AskedToStop(before[t]) && IsBelow(before, infos, task, t)
    {
      if after[t] != between[t] {
        BelowDependent(before, between, infos, task, d, t);
      }
    }
    OneMoreClosed(before, between, after, infos, task, d, rest);
    forall e | e in rest - {d} ensures IsDependent(after, infos, task, e) {
      assert IsDependent(between, infos, task, e);
    }
  }

  lemma OneMoreClosed(
    before: Rows, between: Rows, after: Rows, infos: map<string, Info>, task: string, d: string, rest: set<string>)
    requires before.Keys == between.Keys == after.Keys
    requires forall t | t in between && IsDone(between[t]) :: IsDone(after[t])
    requires IsClosedBut(before, between, infos, task, rest)
    requires IsClosed(between, after, infos) && d in after && IsDone(after[d])
    ensures IsClosedBut(before, after, infos, task, rest - {d})
  {
    forall t, e | EndedHere(before, after, t) && IsDependent(after, infos, t, e) && (t != task || e !in rest - {d})
      ensures IsDone(after[e])
    {
      assert EndedHere(before, between, t) || EndedHere(between, after, t);
      assert IsDependent(between, infos, t, e);
    }
  }

  /** A closed cascade has reached everything below its root. */
  lemma {:induction false} ChainIsFollowed(
    before: Rows, after: Rows, infos: map<string, Info>, chain: seq<string>, i: nat)
    requires i < |chain| && IsChain(before, infos, chain)
    requires IsCascade(before, after, infos, chain[0]) && IsClosed(before, after, infos) && IsDone(after[chain[0]])
    ensures IsDone(after[chain[i]])
  {
    if i > 0 {
      ChainIsFollowed(before, after, infos, chain, i - 1);
      assert IsLink(before, infos, chain[i - 1], chain[i - 1 + 1]);
      assert EndedHere(before, after, chain[i - 1]) && IsDependent(after, infos, chain[i - 1], chain[i]);
    }
  }

  lemma ChainsAreFollowed(before: Rows, after: Rows, infos: map<string, Info>, root: string)
    requires root in after && IsCascade(before, after, infos, root) && IsClosed(before, after, infos)
    requires IsDone(after[root])
    ensures forall t | t in before ::
              after[t] == if IsBelow(before, infos, root, t) then AskedToStop(before[t]) else before[t]
  {
    forall t | t in before && IsBelow(before, infos, root, t) ensures IsDone(after[t]) {
      var chain :| chain != [] && chain[0] == root && chain[|chain| - 1] == t && IsChain(before, infos, chain);
      ChainIsFollowed(before, after, infos, chain, |chain| - 1);
    }
  }

  /** The state a body that was never interfered with ends its task in. */
  function EndFor(passes: bool, result: Outcome): Status
  {
    if !passes then Failed
    else match result
      case ToSucceeded => Succeeded
      case ToCancelled => Cancelled
      case _ => Failed
  }

  /** How a finished body leaves a row that was in this state. */
  function LeftAs(s: Status, outcome: Outcome): Status
  {
    if IsTerminal(s) then s
    else if s == Running then TargetOf(outcome)
    else Cancelled
  }

  function FailedOrCancelled(rows: Rows, task: string): Rows
  {
    if IsIn(rows, task, Running) then Marked(rows, task, ToFailed) else Marked(rows, task, ToCancelled)
  }

  lemma OneMoreFailed(before: Rows, rows: Rows, done: set<string>, task: string)
    requires AreFailed(before, rows, done) && task !in done
    ensures AreFailed(before, FailedOrCancelled(rows, task), done + {task})
  {
  }

  predicate IsOrphan(s: Status)
  {
    s == Running || s == Cancelling
  }

  /** The provider a video would go on with: the one written to its row, or else the one found for it now. */
  function TakenUpBy(info: Info): string
  {
    match info.persisted case Some(p) => p case None => info.resolved
  }

  /** A video with a job at a provider that can go on with it. */
  predicate CanBeTakenUp(info: Info, unresumable: set<string>)
  {
    info.media == "video" && info.job.Some? && info.job.value != "" && TakenUpBy(info) !in unresumable
  }

  ghost predicate IsJudged(s: Status, info: Info, active: bool, unresumable: set<string>)
  {
    var verdict := Judge(s, info, active, unresumable);
    && Recovered(s, verdict) == (if active then s else if s == Cancelling then Cancelled
                                 else if s == Running && !CanBeTakenUp(info, unresumable) then Failed else s)
    && forall p :: IsOrphan(s) && verdict == Resume(p) <==>
                   s == Running && !active && CanBeTakenUp(info, unresumable) && p == TakenUpBy(info)
  }

  /** What recovery decides about one task. */
  lemma Judgement(s: Status, info: Info, active: bool, unresumable: set<string>)
    ensures IsJudged(s, info, active, unresumable)
  {
  }

  /** The status a row is left with by a verdict. */
  function Recovered(s: Status, verdict: Verdict): Status
  {
    if !IsOrphan(s) then s
    else match verdict
      case Skip => s
      case Cancel => Cancelled
      case Fail => Failed
      case Resume(_) => s
  }

  ghost predicate IsListed(resumable: map<string, set<string>>, provider: string, task: string)
  {
    provider in resumable && task in resumable[provider]
  }

  /** The lane holds what it held and, waiting, the whole batch; other lanes are as they were. */
  ghost predicate IsLinedUp(before: Slots, after: Slots, lane: Lane, batch: set<string>)
  {
    && (forall other | other != lane :: BucketOf(after, other) == BucketOf(before, other))
    && BucketOf(after, lane).Keys == BucketOf(before, lane).Keys + batch
    && (forall t | t in batch :: BucketOf(after, lane)[t].pending)
    && forall t | t in BucketOf(before, lane) && t !in batch :: BucketOf(after, lane)[t] == BucketOf(before, lane)[t]
  }

  lemma IsLinedUpNone(slots: Slots, lane: Lane)
    ensures IsLinedUp(slots, slots, lane, {})
  {
    assert BucketOf(slots, lane).Keys + {} == BucketOf(slots, lane).Keys;
  }

  /** Lining up a batch in a lane where nothing waits is the start of the runs whose in-flight bound is known. */
  lemma LinedUpIsStart(before: Slots, after: Slots, lane: Lane, batch: set<string>, capacity: int)
    requires IsLinedUp(before, after, lane, batch) && NoEmptyBucket(after) && capacity > 0
    requires Pending(BucketOf(before, lane)) == {} && batch !! BucketOf(before, lane).Keys
    ensures LaneRuns.IsStart(lane, capacity, BucketOf(before, lane), batch, LaneRuns.State(after, capacity, {}, batch))
  {
    var was, now := BucketOf(before, lane), BucketOf(after, lane);
    forall t ensures t in InFlight(now) <==> t in was {
      assert t in was ==> t !in Pending(was);
    }
  }

  /** What has become of a row since the claiming began, when it was `was`. */
  ghost predicate IsHandled(
    was: Status, task: string, rows: Rows, slots: Slots, infos: map<string, Info>, limits: Limits)
  {
    && task in rows
    && if was != Queued then rows[task] == was
       else
         && task in infos
         && match rows[task]
            case Queued => true
            case Failed => CapacityOf(limits, LaneOf(infos[task])) <= 0
            case Running => task in BucketOf(slots, LaneOf(infos[task]))
            case _ => false
  }

  ghost predicate IsProgress(
    rows0: Rows, rows: Rows, slots0: Slots, slots: Slots, infos: map<string, Info>, limits: Limits)
  {
    && rows.Keys == rows0.Keys <= infos.Keys
    && (forall t | t in rows0 :: IsHandled(rows0[t], t, rows, slots, infos, limits))
    && forall lane :: IsFilledWithin(BucketOf(slots0, lane), BucketOf(slots, lane), EffectiveOf(limits, lane))
  }

  /** Every lane keeps its occupants. */
  ghost predicate Grows(before: Slots, after: Slots)
  {
    forall lane :: BucketOf(before, lane).Keys <= BucketOf(after, lane).Keys
  }

  lemma DispatchGrows(slots: Slots, slots': Slots, lane: Lane, task: string, occupant: Occupant)
    requires IsChangedAt(slots, slots', lane, BucketOf(slots, lane)[task := occupant])
    ensures Grows(slots, slots')
  {
  }

  predicate IsClaimed(rows0: Rows, rows: Rows, task: string)
  {
    IsIn(rows0, task, Queued) && !IsIn(rows, task, Queued)
  }

  /**
   Only tasks that could be claimed at the beginning have been claimed, on that blacklist, and none before an older one
   that can still be.
   */
  ghost predicate AreInTurn(
    rows0: Rows, rows: Rows, slots0: Slots, slots: Slots, infos: map<string, Info>, limits: Limits, media: string)
  {
    && (forall t, blocked: set<string> | IsClaimed(rows0, rows, t) && IsBlacklist(blocked, slots0, limits, media) ::
          IsClaimable(rows0, infos, media, blocked, t))
    && forall t, u, blocked: set<string> |
         IsClaimed(rows0, rows, t) && t in infos && IsBlacklist(blocked, slots, limits, media)
         && IsClaimable(rows, infos, media, blocked, u) ::
         infos[t].queuedAt <= infos[u].queuedAt
  }

  /** Blacklists only grow while lanes only fill. */
  lemma BlacklistGrows(
    before: Slots, after: Slots, limits: Limits, media: string, a: set<string>, b: set<string>)
    requires Grows(before, after) && IsBlacklist(a, before, limits, media) && IsBlacklist(b, after, limits, media)
    ensures a <= b
  {
    forall p | p in a ensures p in b {
      var lane := Lane(p, media);
      FewerKeys(BucketOf(before, lane), BucketOf(after, lane));
    }
  }

  lemma FewerKeys(a: Bucket, b: Bucket)
    requires a.Keys <= b.Keys
    ensures |a| <= |b|
  {
    Sets.SubsetSize(a.Keys, b.Keys);
    assert |a.Keys| == |a| && |b.Keys| == |b|;
  }

  /** What can be claimed later, from fuller lanes, could be claimed before. */
  lemma ClaimableBefore(
    rows0: Rows, rows: Rows, infos: map<string, Info>, media: string, a: set<string>, b: set<string>, task: string)
    requires rows.Keys == rows0.Keys && a <= b && IsClaimable(rows, infos, media, b, task)
    requires IsIn(rows0, task, Queued) && forall t | IsIn(rows, t, Succeeded) :: IsIn(rows0, t, Succeeded)
    ensures IsClaimable(rows0, infos, media, a, task)
  {
  }

  lemma OneMoreInTurn(
    rows0: Rows, rows: Rows, rows': Rows, slots0: Slots, slots: Slots, slots': Slots, infos: map<string, Info>,
    limits: Limits, media: string, blocked: set<string>, task: string)
    requires IsProgress(rows0, rows, slots0, slots, infos, limits)
    requires AreInTurn(rows0, rows, slots0, slots, infos, limits, media)
    requires IsBlacklist(blocked, slots, limits, media) && IsClaimable(rows, infos, media, blocked, task)
    requires forall t | IsClaimable(rows, infos, media, blocked, t) :: infos[task].queuedAt <= infos[t].queuedAt
    requires Grows(slots, slots') && (rows' == rows[task := Failed] || rows' == rows[task := Running])
    ensures AreInTurn(rows0, rows', slots0, slots', infos, limits, media)
  {
    forall t | t in rows0 ensures IsIn(rows, t, Succeeded) ==> IsIn(rows0, t, Succeeded) {
      assert IsHandled(rows0[t], t, rows, slots, infos, limits);
    }
    forall t, b: set<string> | IsClaimed(rows0, rows', t) && IsBlacklist(b, slots0, limits, media)
      ensures IsClaimable(rows0, infos, media, b, t)
    {
      if t == task {
        FilledGrows(rows0, rows, slots0, slots, infos, limits);
        BlacklistGrows(slots0, slots, limits, media, b, blocked);
        ClaimableBefore(rows0, rows, infos, media, b, blocked, t);
      } else {
        assert IsClaimed(rows0, rows, t);
      }
    }
    forall t, u, b: set<string> |
      IsClaimed(rows0, rows', t) && t in infos && IsBlacklist(b, slots', limits, media)
      && IsClaimable(rows', infos, media, b, u)
      ensures infos[t].queuedAt <= infos[u].queuedAt
    {
      BlacklistGrows(slots, slots', limits, media, blocked, b);
      ClaimableBefore(rows, rows', infos, media, blocked, b, u);
      assert t != task ==> IsClaimed(rows0, rows, t);
    }
  }

  lemma FilledGrows(
    rows0: Rows, rows: Rows, slots0: Slots, slots: Slots, infos: map<string, Info>, limits: Limits)
    requires IsProgress(rows0, rows, slots0, slots, infos, limits)
    ensures Grows(slots0, slots)
  {
    forall lane ensures BucketOf(slots0, lane).Keys <= BucketOf(slots, lane).Keys {
      assert IsFilledWithin(BucketOf(slots0, lane), BucketOf(slots, lane), EffectiveOf(limits, lane));
    }
  }

  /** The projected provider of a task brought up to date, unless the database refuses. */
  function Refreshed(infos: map<string, Info>, task: string, refreshed: bool): map<string, Info>
    requires task in infos
  {
    if refreshed then infos[task := infos[task].(persisted := Some(infos[task].resolved))] else infos
  }

  /** There is only one blacklist at a time, so what the last query could not claim nothing can. */
  lemma NothingClaimable(
    rows: Rows, infos: map<string, Info>, slots: Slots, limits: Limits, media: string, blocked: set<string>)
    requires IsBlacklist(blocked, slots, limits, media)
    requires forall t :: !IsClaimable(rows, infos, media, blocked, t)
    ensures forall other: set<string>, t | IsBlacklist(other, slots, limits, media) ::
              !IsClaimable(rows, infos, media, other, t)
  {
    forall other: set<string>, t | IsBlacklist(other, slots, limits, media)
      ensures !IsClaimable(rows, infos, media, other, t)
    {
      assert other == blocked;
    }
  }

  /** The blacklist for a medium is exactly the providers whose lane is blocked. */
  ghost predicate IsBlacklist(blocked: set<string>, slots: Slots, limits: Limits, media: string)
  {
    forall p :: p in blocked <==> IsBlocked(slots, limits, Lane(p, media))
  }

  /** The task is queued as before, and its provider, when refreshed, keeps it out of the next query. */
  ghost predicate IsPutBack(
    task: string, rows: Rows, slots: Slots, infos0: map<string, Info>, infos: map<string, Info>, limits: Limits,
    refreshed: bool)
  {
    && IsIn(rows, task, Queued) && task in infos0
    && infos == Refreshed(infos0, task, refreshed)
    && IsBlocked(slots, limits, LaneOf(infos[task]))
    && (refreshed ==>
          forall blocked: set<string> | IsBlacklist(blocked, slots, limits, infos[task].media) ::
            !IsClaimable(rows, infos, infos[task].media, blocked, task))
  }

  lemma FailureIsProgress(
    rows0: Rows, rows: Rows, slots0: Slots, slots: Slots, infos: map<string, Info>, limits: Limits, task: string)
    requires IsProgress(rows0, rows, slots0, slots, infos, limits) && IsIn(rows, task, Queued)
    requires CapacityOf(limits, LaneOf(infos[task])) <= 0
    ensures Marked(rows[task := Running], task, ToFailed) == rows[task := Failed]
    ensures IsProgress(rows0, rows[task := Failed], slots0, slots, infos, limits)
    ensures |QueuedIn(rows[task := Failed])| < |QueuedIn(rows)|
  {
    OneLessQueued(rows, task, Failed);
    forall t | t in rows0 ensures IsHandled(rows0[t], t, rows[task := Failed], slots, infos, limits) {
      assert IsHandled(rows0[t], t, rows, slots, infos, limits);
    }
  }

  lemma PuttingBackIsProgress(
    rows0: Rows, rows: Rows, slots0: Slots, slots: Slots, infos0: map<string, Info>, limits: Limits, task: string,
    refreshed: bool)
    requires IsProgress(rows0, rows, slots0, slots, infos0, limits) && IsIn(rows, task, Queued)
    requires IsBlocked(slots, limits, LaneOf(infos0[task]))
    ensures rows == rows[task := Running][task := Queued]
    ensures IsProgress(rows0, rows, slots0, slots, Refreshed(infos0, task, refreshed), limits)
    ensures IsPutBack(task, rows, slots, infos0, Refreshed(infos0, task, refreshed), limits, refreshed)
  {
    var infos := Refreshed(infos0, task, refreshed);
    forall t | t in rows0 ensures IsHandled(rows0[t], t, rows, slots, infos, limits) {
      assert IsHandled(rows0[t], t, rows, slots, infos0, limits);
    }
  }

  lemma DispatchIsProgress(
    rows0: Rows, rows: Rows, slots0: Slots, slots: Slots, slots': Slots, infos: map<string, Info>, limits: Limits,
    task: string, handle: int)
    requires IsProgress(rows0, rows, slots0, slots, infos, limits) && IsIn(rows, task, Queued)
    requires |BucketOf(slots, LaneOf(infos[task]))| < EffectiveOf(limits, LaneOf(infos[task]))
    requires IsChangedAt(slots, slots', LaneOf(infos[task]),
             BucketOf(slots, LaneOf(infos[task]))[task := Occupant(handle, false)])
    ensures IsProgress(rows0, rows[task := Running], slots0, slots', infos, limits)
    ensures |QueuedIn(rows[task := Running])| < |QueuedIn(rows)|
  {
    OneLessQueued(rows, task, Running);
    forall t | t in rows0 ensures IsHandled(rows0[t], t, rows[task := Running], slots', infos, limits) {
      assert IsHandled(rows0[t], t, rows, slots, infos, limits);
    }
    forall lane ensures IsFilledWithin(BucketOf(slots0, lane), BucketOf(slots', lane), EffectiveOf(limits, lane)) {
      assert IsFilledWithin(BucketOf(slots0, lane), BucketOf(slots, lane), EffectiveOf(limits, lane));
    }
  }

  function QueuedIn(rows: Rows): set<string>
  {
    set id | id in rows && rows[id] == Queued
  }

  lemma OneLessQueued(rows: Rows, id: string, status: Status)
    requires IsIn(rows, id, Queued) && status != Queued
    ensures |QueuedIn(rows[id := status])| < |QueuedIn(rows)|
  {
    assert QueuedIn(rows[id := status]) == QueuedIn(rows) - {id};
  }

  /** A lane keeps all its occupants, and grows only as far as `bound`. */
  ghost predicate IsFilledWithin(before: Bucket, after: Bucket, bound: int)
  {
    before.Keys <= after.Keys && (after == before || |after| <= bound)
  }
}
