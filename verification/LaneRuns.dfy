/** One video lane while a batch of resumed tasks works through it: how many tasks can be in flight at once. */
module LaneRuns {
  import opened Wrappers
  import opened SlotTable
  import opened Sets

  /** The table, the semaphore's free permits, and the batch's bodies that hold a permit or have yet to ask for one. */
  datatype State = State(slots: Slots, permits: int, holders: set<string>, waiting: set<string>)

  datatype Step =
    | Acquire(id: string)          // got a permit; promoted in the same breath
    | Stop(stopped: string)        // got a permit after shutdown began: gives everything back at once
    | CancelWaiting(cancelled: string)
    | CancelUnstarted(leaked: string) // the body never ran, so nothing releases its slot
    | Finish(done: string)
    | Drain(tasks: set<int>)
    | Claim(claimed: string, task: int, effective: int)
    | Elsewhere                    // anything that happens in other lanes

  /** The lane holds `running` and the whole batch, which waits for a semaphore of the lane's capacity. */
  ghost predicate IsStart(lane: Lane, capacity: int, running: Bucket, batch: set<string>, s: State)
  {
    && capacity > 0
    && Pending(running) == {} && batch !! running.Keys
    && BucketOf(s.slots, lane).Keys == running.Keys + batch
    && InFlight(BucketOf(s.slots, lane)) == running.Keys
    && NoEmptyBucket(s.slots)
    && s.permits == capacity && s.holders == {} && s.waiting == batch
  }

  /** The steps use the table only through its operations. */
  ghost predicate Next(lane: Lane, capacity: int, s: State, step: Step, s': State)
  {
    var bucket := BucketOf(s.slots, lane);
    && NoEmptyBucket(s'.slots)
    && match step
       case Acquire(id) =>
         && id in s.waiting && s.permits > 0
         && IsChangedAt(s.slots, s'.slots, lane, Promoted(bucket, id))
         && s' == State(s'.slots, s.permits - 1, s.holders + {id}, s.waiting - {id})
       case Stop(id) =>
         && id in s.waiting && s.permits > 0
         && IsChangedAt(s.slots, s'.slots, lane, bucket - {id})
         && s' == State(s'.slots, s.permits, s.holders, s.waiting - {id})
       case CancelWaiting(id) =>
         && id in s.waiting
         && IsChangedAt(s.slots, s'.slots, lane, bucket - {id})
         && s' == State(s'.slots, s.permits, s.holders, s.waiting - {id})
       case CancelUnstarted(id) =>
         && id in s.waiting
         && s' == s.(waiting := s.waiting - {id})
       case Finish(id) =>
         && id in s.holders
         && IsChangedAt(s.slots, s'.slots, lane, bucket - {id})
         && s' == State(s'.slots, s.permits + 1, s.holders - {id}, s.waiting)
       case Drain(tasks) =>
         && (forall id | id in s.holders && id in bucket :: bucket[id].task !in tasks)
         && (forall other :: BucketOf(s'.slots, other) == Undrained(BucketOf(s.slots, other), tasks))
         && s' == s.(slots := s'.slots)
       case Claim(id, task, effective) =>
         && 0 < effective <= capacity && |bucket| < effective && id !in bucket && id !in s.waiting && id !in s.holders
         && IsChangedAt(s.slots, s'.slots, lane, bucket[id := Occupant(task, false)])
         && s' == s.(slots := s'.slots)
       case Elsewhere =>
         && BucketOf(s'.slots, lane) == bucket
         && s' == s.(slots := s'.slots)
  }

  ghost predicate IsRun(
    lane: Lane, capacity: int, running: Bucket, batch: set<string>, states: seq<State>, steps: seq<Step>)
  {
    && |states| == |steps| + 1
    && IsStart(lane, capacity, running, batch, states[0])
    && forall i | 0 <= i < |steps| :: Next(lane, capacity, states[i], steps[i], states[i + 1])
  }

  /**
   Every permit is free or held by a task in flight. As long as a task claimed meanwhile is in flight, the whole lane
   is within capacity; until one is, everything in flight holds a permit or was running before the batch.
   */
  ghost predicate IsSound(lane: Lane, capacity: int, running: Bucket, s: State)
  {
    NoEmptyBucket(s.slots) && IsBalanced(BucketOf(s.slots, lane), capacity, running, s)
  }

  ghost predicate IsBalanced(bucket: Bucket, capacity: int, running: Bucket, s: State)
  {
    && s.permits >= 0 && s.permits + |s.holders| == capacity
    && s.holders <= InFlight(bucket)
    && s.waiting <= Pending(bucket)
    && (|bucket| <= capacity || InFlight(bucket) <= s.holders + running.Keys)
  }

  lemma AcquireKeepsBalance(bucket: Bucket, capacity: int, running: Bucket, s: State, id: string, s': State)
    requires IsBalanced(bucket, capacity, running, s) && id in s.waiting && s.permits > 0
    requires s' == State(s'.slots, s.permits - 1, s.holders + {id}, s.waiting - {id})
    ensures IsBalanced(Promoted(bucket, id), capacity, running, s')
  {
    assert Promoted(bucket, id).Keys == bucket.Keys;
    SameSize(bucket, Promoted(bucket, id));
    assert InFlight(Promoted(bucket, id)) == InFlight(bucket) + {id};
    assert Pending(Promoted(bucket, id)) == Pending(bucket) - {id};
  }

  /** Taking out tasks that neither hold a permit nor wait for one. */
  lemma RemovalKeepsBalance(bucket: Bucket, left: Bucket, capacity: int, running: Bucket, s: State, s': State)
    requires IsBalanced(bucket, capacity, running, s)
    requires s'.permits >= 0 && s'.permits + |s'.holders| == capacity
    requires s'.holders <= s.holders && s'.waiting <= s.waiting && s'.holders + s'.waiting <= left.Keys <= bucket.Keys
    requires forall id | id in left :: left[id] == bucket[id]
    requires forall id | id in left && id in s.holders :: id in s'.holders
    ensures IsBalanced(left, capacity, running, s')
  {
    Smaller(bucket, left);
    assert InFlight(left) <= InFlight(bucket);
    assert Pending(left) <= Pending(bucket);
  }

  lemma ClaimKeepsBalance(bucket: Bucket, capacity: int, running: Bucket, s: State, id: string, task: int)
    requires IsBalanced(bucket, capacity, running, s) && |bucket| < capacity && id !in bucket
    ensures IsBalanced(bucket[id := Occupant(task, false)], capacity, running, s)
  {
    var more := bucket[id := Occupant(task, false)];
    assert |more| == |bucket| + 1;
    assert InFlight(bucket) <= InFlight(more);
    assert Pending(more) == Pending(bucket);
  }

  lemma DrainKeepsBalance(bucket: Bucket, capacity: int, running: Bucket, s: State, tasks: set<int>, s': State)
    requires IsBalanced(bucket, capacity, running, s)
    requires forall id | id in s.holders && id in bucket :: bucket[id].task !in tasks
    requires s'.permits == s.permits && s'.holders == s.holders && s'.waiting == s.waiting
    ensures IsBalanced(Undrained(bucket, tasks), capacity, running, s')
  {
    var left := Undrained(bucket, tasks);
    forall id | id in s.holders || id in s.waiting ensures id in left {
      assert id in s.waiting ==> id in Pending(bucket);
      assert id in s.holders ==> id in InFlight(bucket);
    }
    RemovalKeepsBalance(bucket, left, capacity, running, s, s');
  }

  lemma LeaveKeepsBalance(bucket: Bucket, capacity: int, running: Bucket, s: State, id: string, s': State)
    requires IsBalanced(bucket, capacity, running, s)
    requires id in s.waiting && s' == State(s'.slots, s.permits, s.holders, s.waiting - {id})
    ensures IsBalanced(bucket - {id}, capacity, running, s')
  {
    assert id in Pending(bucket) && id !in InFlight(bucket);
    RemovalKeepsBalance(bucket, bucket - {id}, capacity, running, s, s');
  }

  lemma FinishKeepsBalance(bucket: Bucket, capacity: int, running: Bucket, s: State, id: string, s': State)
    requires IsBalanced(bucket, capacity, running, s)
    requires id in s.holders && s' == State(s'.slots, s.permits + 1, s.holders - {id}, s.waiting)
    ensures IsBalanced(bucket - {id}, capacity, running, s')
  {
    assert id in InFlight(bucket) && id !in Pending(bucket);
    var left := bucket - {id};
    Smaller(bucket, left);
    assert InFlight(left) == InFlight(bucket) - {id};
    assert Pending(left) == Pending(bucket);
  }

  lemma StepIsSound(lane: Lane, capacity: int, running: Bucket, s: State, step: Step, s': State)
    requires IsSound(lane, capacity, running, s) && Next(lane, capacity, s, step, s')
    ensures IsSound(lane, capacity, running, s')
  {
    var bucket := BucketOf(s.slots, lane);
    match step
    case Acquire(id) =>
      AcquireKeepsBalance(bucket, capacity, running, s, id, s');
    case Stop(id) =>
      LeaveKeepsBalance(bucket, capacity, running, s, id, s');
    case CancelWaiting(id) =>
      LeaveKeepsBalance(bucket, capacity, running, s, id, s');
    case CancelUnstarted(id) =>
    case Finish(id) =>
      FinishKeepsBalance(bucket, capacity, running, s, id, s');
    case Drain(tasks) =>
      DrainKeepsBalance(bucket, capacity, running, s, tasks, s');
    case Claim(id, task, effective) =>
      ClaimKeepsBalance(bucket, capacity, running, s, id, task);
    case Elsewhere =>
  }

  lemma SameSize(a: Bucket, b: Bucket)
    requires a.Keys == b.Keys
    ensures |a| == |b|
  {
  }

  lemma Smaller(a: Bucket, b: Bucket)
    requires b.Keys <= a.Keys
    ensures |b| <= |a|
  {
    SubsetSize(b.Keys, a.Keys);
  }

  lemma StartIsSound(lane: Lane, capacity: int, running: Bucket, batch: set<string>, s: State)
    requires IsStart(lane, capacity, running, batch, s)
    ensures IsSound(lane, capacity, running, s)
  {
    var bucket := BucketOf(s.slots, lane);
    forall id | id in batch ensures id in Pending(bucket) {
      assert id !in InFlight(bucket);
    }
  }

  lemma {:induction false} RunIsSound(
    lane: Lane, capacity: int, running: Bucket, batch: set<string>, states: seq<State>, steps: seq<Step>, i: nat)
    requires IsRun(lane, capacity, running, batch, states, steps) && i < |states|
    ensures IsSound(lane, capacity, running, states[i])
  {
    if i == 0 {
      StartIsSound(lane, capacity, running, batch, states[0]);
    } else {
      RunIsSound(lane, capacity, running, batch, states, steps, i - 1);
      assert Next(lane, capacity, states[i - 1], steps[i - 1], states[i - 1 + 1]);
      StepIsSound(lane, capacity, running, states[i - 1], steps[i - 1], states[i]);
    }
  }

  /**
   However the semaphore, promotion, release, draining and claiming interleave, no more than `capacity` tasks are in
   flight on top of those that were running before the batch. In a lane that was empty the bound is the capacity.
   */
  lemma NeverOverCapacity(
    lane: Lane, capacity: int, running: Bucket, batch: set<string>, states: seq<State>, steps: seq<Step>, i: nat)
    requires IsRun(lane, capacity, running, batch, states, steps) && i < |states|
    ensures |InFlight(BucketOf(states[i].slots, lane))| <= capacity + |running|
    ensures running == map[] ==> |InFlight(BucketOf(states[i].slots, lane))| <= capacity
    ensures NoEmptyBucket(states[i].slots)
  {
    RunIsSound(lane, capacity, running, batch, states, steps, i);
    var s := states[i];
    var bucket := BucketOf(s.slots, lane);
    if |bucket| <= capacity {
      SubsetSize(InFlight(bucket), bucket.Keys);
    } else {
      SubsetSize(InFlight(bucket), s.holders + running.Keys);
      UnionSize(s.holders, running.Keys);
    }
  }

  lemma UnionSize<T>(a: set<T>, b: set<T>)
    ensures |a + b| <= |a| + |b|
  {
    assert a + b == a + (b - a);
    assert a !! (b - a);
    SubsetSize(b - a, b);
  }

  function Ids(order: seq<string>): (ids: set<string>)
  {
    set id | id in order
  }

  /**
   A batch in a lane that is not empty can take the lane over its capacity: the semaphore does not count what was
   there.
   */
  lemma {:induction false} OccupiedLaneOverflows(
    lane: Lane, capacity: int, running: Bucket, batch: set<string>, s: State, order: seq<string>)
    returns (states: seq<State>, steps: seq<Step>)
    requires IsStart(lane, capacity, running, batch, s) && |order| <= capacity
    requires forall k | 0 <= k < |order| :: order[k] in batch
    requires forall j, k | 0 <= j < k < |order| :: order[j] != order[k]
    ensures IsRun(lane, capacity, running, batch, states, steps) && states[0] == s
    ensures HaveStarted(lane, capacity, running, batch, states[|states| - 1], Ids(order), |order|)
  {
    if order == [] {
      return [s], [];
    }
    var n := |order| - 1;
    var init, id := order[..n], order[n];
    states, steps := OccupiedLaneOverflows(lane, capacity, running, batch, s, init);
    assert Ids(order) == Ids(init) + {id} by {
      assert order == init + [id];
    }
    var last := states[|states| - 1];
    var next := OneMoreStarts(lane, capacity, running, batch, last, Ids(init), n, id);
    AppendStep(lane, capacity, running, batch, states, steps, Acquire(id), next);
    states, steps := states + [next], steps + [Acquire(id)];
  }

  /** The batch members in `started` hold permits; nothing else has happened yet. */
  ghost predicate HaveStarted(
    lane: Lane, capacity: int, running: Bucket, batch: set<string>, s: State, started: set<string>, count: int)
  {
    var bucket := BucketOf(s.slots, lane);
    && InFlight(bucket) == running.Keys + started
    && s.permits == capacity - count && s.waiting == batch - started
    && batch <= bucket.Keys && NoEmptyBucket(s.slots)
  }

  lemma OneMoreStarts(
    lane: Lane, capacity: int, running: Bucket, batch: set<string>, s: State, started: set<string>, count: int,
    id: string)
    returns (next: State)
    requires HaveStarted(lane, capacity, running, batch, s, started, count) && count < capacity
    requires id in batch && id !in started
    ensures Next(lane, capacity, s, Acquire(id), next)
    ensures HaveStarted(lane, capacity, running, batch, next, started + {id}, count + 1)
  {
    var bucket := BucketOf(s.slots, lane);
    var promoted := Promoted(bucket, id);
    next := State(s.slots[lane := promoted], s.permits - 1, s.holders + {id}, s.waiting - {id});
    assert id in promoted && promoted.Keys == bucket.Keys;
    assert InFlight(promoted) == InFlight(bucket) + {id};
    assert IsChangedAt(s.slots, next.slots, lane, promoted);
  }

  lemma AppendStep(
    lane: Lane, capacity: int, running: Bucket, batch: set<string>, states: seq<State>, steps: seq<Step>, step: Step,
    next: State)
    requires IsRun(lane, capacity, running, batch, states, steps)
    requires Next(lane, capacity, states[|states| - 1], step, next)
    ensures IsRun(lane, capacity, running, batch, states + [next], steps + [step])
  {
    var more, moves := states + [next], steps + [step];
    forall i | 0 <= i < |moves| ensures Next(lane, capacity, more[i], moves[i], more[i + 1]) {
      if i < |steps| {
        assert Next(lane, capacity, states[i], steps[i], states[i + 1]);
      }
    }
  }

  /** Exactly when the lane was empty is a large enough batch sure to stay within capacity. */
  lemma WithinCapacityIffEmpty(
    lane: Lane, capacity: int, running: Bucket, batch: set<string>, order: seq<string>, s: State)
    requires IsStart(lane, capacity, running, batch, s) && |order| == capacity
    requires forall k | 0 <= k < |order| :: order[k] in batch
    requires forall j, k | 0 <= j < k < |order| :: order[j] != order[k]
    ensures running == map[] <==>
            forall states: seq<State>, steps: seq<Step>, i: nat |
              IsRun(lane, capacity, running, batch, states, steps) && states[0] == s && i < |states| ::
              |InFlight(BucketOf(states[i].slots, lane))| <= capacity
  {
    forall states: seq<State>, steps: seq<Step>, i: nat |
      running == map[] && IsRun(lane, capacity, running, batch, states, steps) && states[0] == s && i < |states|
      ensures |InFlight(BucketOf(states[i].slots, lane))| <= capacity
    {
      NeverOverCapacity(lane, capacity, running, batch, states, steps, i);
    }
    if running != map[] {
      var states, steps := OccupiedLaneOverflows(lane, capacity, running, batch, s, order);
      var ids := Ids(order);
      DistinctSize(order);
      assert |running.Keys + ids| == |running| + capacity by {
        assert running.Keys !! ids;
      }
      assert |running| > 0;
    }
  }

  lemma {:induction false} DistinctSize(order: seq<string>)
    requires forall j, k | 0 <= j < k < |order| :: order[j] != order[k]
    ensures |Ids(order)| == |order|
  {
    if order != [] {
      var n := |order| - 1;
      DistinctSize(order[..n]);
      assert Ids(order) == (Ids(order[..n])) + {order[n]} by {
        assert order == order[..n] + [order[n]];
      }
      assert order[n] !in order[..n];
    }
  }

  // ----- slots that are never given back

  /** The tasks whose bodies were cancelled before their first step. */
  function LeakedBy(steps: seq<Step>): (ids: set<string>)
  {
    set i | 0 <= i < |steps| && steps[i].CancelUnstarted? :: steps[i].leaked
  }

  lemma LeakedAppend(steps: seq<Step>, step: Step)
    ensures LeakedBy(steps + [step]) == LeakedBy(steps) + (if step.CancelUnstarted? then {step.leaked} else {})
  {
    var more := steps + [step];
    forall i | 0 <= i < |steps| && steps[i].CancelUnstarted? ensures steps[i].leaked in LeakedBy(more) {
      assert more[i] == steps[i];
    }
    assert more[|steps|] == step;
  }

  /** What still waits in the lane is waiting for its turn or has been left behind, and not both. */
  ghost predicate IsAccounted(lane: Lane, s: State, leaked: set<string>)
  {
    Pending(BucketOf(s.slots, lane)) == s.waiting + leaked && s.waiting !! leaked
  }

  lemma RemovalIsAccounted(lane: Lane, s: State, leaked: set<string>, id: string, s': State)
    requires IsAccounted(lane, s, leaked) && s'.waiting == s.waiting - {id} && id !in leaked
    requires BucketOf(s'.slots, lane) == BucketOf(s.slots, lane) - {id}
    ensures IsAccounted(lane, s', leaked)
  {
    assert Pending(BucketOf(s.slots, lane) - {id}) == Pending(BucketOf(s.slots, lane)) - {id};
  }

  lemma PromotionIsAccounted(lane: Lane, s: State, leaked: set<string>, id: string, s': State)
    requires IsAccounted(lane, s, leaked) && id in s.waiting && s'.waiting == s.waiting - {id}
    requires BucketOf(s'.slots, lane) == Promoted(BucketOf(s.slots, lane), id)
    ensures IsAccounted(lane, s', leaked)
  {
    assert id in Pending(BucketOf(s.slots, lane));
    assert Pending(Promoted(BucketOf(s.slots, lane), id)) == Pending(BucketOf(s.slots, lane)) - {id};
  }

  lemma SamePendingIsAccounted(lane: Lane, s: State, leaked: set<string>, s': State)
    requires IsAccounted(lane, s, leaked) && s'.waiting == s.waiting
    requires Pending(BucketOf(s'.slots, lane)) == Pending(BucketOf(s.slots, lane))
    ensures IsAccounted(lane, s', leaked)
  {
  }

  lemma DrainKeepsPending(bucket: Bucket, tasks: set<int>)
    ensures Pending(Undrained(bucket, tasks)) == Pending(bucket)
  {
  }

  lemma ClaimKeepsPending(bucket: Bucket, id: string, task: int)
    requires id !in bucket
    ensures Pending(bucket[id := Occupant(task, false)]) == Pending(bucket)
  {
  }

  lemma LeakIsAccounted(lane: Lane, s: State, leaked: set<string>, id: string, s': State)
    requires IsAccounted(lane, s, leaked) && id in s.waiting && s' == s.(waiting := s.waiting - {id})
    ensures IsAccounted(lane, s', leaked + {id})
  {
    assert s.waiting + leaked == s'.waiting + (leaked + {id});
  }

  lemma StepIsAccounted(
    lane: Lane, capacity: int, running: Bucket, s: State, leaked: set<string>, step: Step, s': State)
    requires IsSound(lane, capacity, running, s) && IsAccounted(lane, s, leaked) && Next(lane, capacity, s, step, s')
    ensures !step.CancelUnstarted? ==> IsAccounted(lane, s', leaked)
    ensures step.CancelUnstarted? ==> IsAccounted(lane, s', leaked + {step.leaked})
  {
    var bucket := BucketOf(s.slots, lane);
    match step
    case Acquire(id) =>
      PromotionIsAccounted(lane, s, leaked, id, s');
    case Stop(id) =>
      RemovalIsAccounted(lane, s, leaked, id, s');
    case CancelWaiting(id) =>
      RemovalIsAccounted(lane, s, leaked, id, s');
    case CancelUnstarted(id) =>
      LeakIsAccounted(lane, s, leaked, id, s');
    case Finish(id) =>
      HoldersAreInFlight(lane, capacity, running, s, leaked, id);
      RemovalIsAccounted(lane, s, leaked, id, s');
    case Drain(tasks) =>
      DrainKeepsPending(bucket, tasks);
      SamePendingIsAccounted(lane, s, leaked, s');
    case Claim(id, task, effective) =>
      ClaimKeepsPending(bucket, id, task);
      SamePendingIsAccounted(lane, s, leaked, s');
    case Elsewhere =>
      SamePendingIsAccounted(lane, s, leaked, s');
  }

  lemma HoldersAreInFlight(lane: Lane, capacity: int, running: Bucket, s: State, leaked: set<string>, id: string)
    requires IsSound(lane, capacity, running, s) && IsAccounted(lane, s, leaked) && id in s.holders
    ensures id !in leaked && id !in s.waiting
  {
    assert id in InFlight(BucketOf(s.slots, lane));
    assert id !in Pending(BucketOf(s.slots, lane));
  }

  lemma {:induction false} RunIsAccounted(
    lane: Lane, capacity: int, running: Bucket, batch: set<string>, states: seq<State>, steps: seq<Step>, i: nat)
    requires IsRun(lane, capacity, running, batch, states, steps) && i < |states|
    ensures IsAccounted(lane, states[i], LeakedBy(steps[..i]))
  {
    if i == 0 {
      StartIsAccounted(lane, capacity, running, batch, states[0]);
      assert LeakedBy(steps[..0]) == {};
    } else {
      RunIsAccounted(lane, capacity, running, batch, states, steps, i - 1);
      RunIsSound(lane, capacity, running, batch, states, steps, i - 1);
      assert Next(lane, capacity, states[i - 1], steps[i - 1], states[i - 1 + 1]);
      StepIsAccounted(lane, capacity, running, states[i - 1], LeakedBy(steps[..i - 1]), steps[i - 1], states[i]);
      LeakedNext(steps, i);
    }
  }

  lemma LeakedNext(steps: seq<Step>, i: nat)
    requires 0 < i <= |steps|
    ensures steps[i - 1].CancelUnstarted? ==> LeakedBy(steps[..i]) == LeakedBy(steps[..i - 1]) + {steps[i - 1].leaked}
    ensures !steps[i - 1].CancelUnstarted? ==> LeakedBy(steps[..i]) == LeakedBy(steps[..i - 1])
  {
    assert steps[..i] == steps[..i - 1] + [steps[i - 1]];
    LeakedAppend(steps[..i - 1], steps[i - 1]);
  }

  /**
   At every moment of every run the slots that wait are those of bodies that can still get their turn, and those of
   bodies that were cancelled before their first step.
   */
  lemma WaitingOrLeftBehind(
    lane: Lane, capacity: int, running: Bucket, batch: set<string>, states: seq<State>, steps: seq<Step>, i: nat)
    requires IsRun(lane, capacity, running, batch, states, steps) && i < |states|
    ensures Pending(BucketOf(states[i].slots, lane)) == states[i].waiting + LeakedBy(steps[..i])
    ensures states[i].waiting !! LeakedBy(steps[..i])
  {
    RunIsAccounted(lane, capacity, running, batch, states, steps, i);
  }

  lemma StartIsAccounted(lane: Lane, capacity: int, running: Bucket, batch: set<string>, s: State)
    requires IsStart(lane, capacity, running, batch, s)
    ensures IsAccounted(lane, s, {})
  {
    var bucket := BucketOf(s.slots, lane);
    forall id ensures id in Pending(bucket) <==> id in batch {
      assert id in running.Keys <==> id in InFlight(bucket);
    }
    assert batch + {} == batch;
  }

  /** A slot waits although nobody is left to give it back. */
  ghost predicate IsLeftBehind(lane: Lane, s: State, id: string)
  {
    id in Pending(BucketOf(s.slots, lane)) && id !in s.waiting
  }

  /** The dispatcher gives every slot back exactly when no body is cancelled before its first step. */
  lemma NothingLeftBehindIffAllStarted(
    lane: Lane, capacity: int, running: Bucket, batch: set<string>, states: seq<State>, steps: seq<Step>)
    requires IsRun(lane, capacity, running, batch, states, steps)
    ensures (forall id :: !IsLeftBehind(lane, states[|steps|], id)) <==>
            forall i | 0 <= i < |steps| :: !steps[i].CancelUnstarted?
  {
    WaitingOrLeftBehind(lane, capacity, running, batch, states, steps, |steps|);
    assert steps[..|steps|] == steps;
    forall i | 0 <= i < |steps| && steps[i].CancelUnstarted?
      ensures IsLeftBehind(lane, states[|steps|], steps[i].leaked)
    {
      assert steps[i].leaked in LeakedBy(steps);
    }
  }

  /** A slot left behind stays so in every continuation, and takes room for good. */
  lemma LeftBehindForGood(
    lane: Lane, capacity: int, running: Bucket, batch: set<string>, states: seq<State>, steps: seq<Step>,
    i: nat, j: nat, id: string)
    requires IsRun(lane, capacity, running, batch, states, steps) && i <= j < |states|
    requires IsLeftBehind(lane, states[i], id)
    ensures IsLeftBehind(lane, states[j], id)
    ensures |BucketOf(states[j].slots, lane)| >= |LeakedBy(steps[..i])| > 0
  {
    WaitingOrLeftBehind(lane, capacity, running, batch, states, steps, i);
    WaitingOrLeftBehind(lane, capacity, running, batch, states, steps, j);
    LeakedGrows(steps, i, j);
    var bucket := BucketOf(states[j].slots, lane);
    assert id in LeakedBy(steps[..i]);
    SubsetSize(LeakedBy(steps[..i]), bucket.Keys);
  }

  lemma LeakedGrows(steps: seq<Step>, i: nat, j: nat)
    requires i <= j <= |steps|
    ensures LeakedBy(steps[..i]) <= LeakedBy(steps[..j])
  {
    forall k | 0 <= k < i && steps[..i][k].CancelUnstarted? ensures steps[..i][k].leaked in LeakedBy(steps[..j]) {
      assert steps[..j][k] == steps[..i][k];
    }
  }

  /** Once as many bodies as the capacity have been cancelled before their first step, nothing is ever claimed again. */
  lemma LeftBehindStarves(
    lane: Lane, capacity: int, running: Bucket, batch: set<string>, states: seq<State>, steps: seq<Step>, i: nat,
    j: nat)
    requires IsRun(lane, capacity, running, batch, states, steps) && i <= j < |steps|
    requires |LeakedBy(steps[..i])| >= capacity
    ensures !steps[j].Claim?
  {
    WaitingOrLeftBehind(lane, capacity, running, batch, states, steps, j);
    LeakedGrows(steps, i, j);
    assert Next(lane, capacity, states[j], steps[j], states[j + 1]);
    SubsetSize(LeakedBy(steps[..i]), BucketOf(states[j].slots, lane).Keys);
  }

  /**
   The input that shows it: a lane of capacity 1, one resumed task, cancelled before its body first runs. Its slot is
   left behind, and no continuation of the run claims anything in this lane.
   */
  lemma OneCancelStrandsTheLane(lane: Lane, handle: int) returns (states: seq<State>, steps: seq<Step>)
    ensures IsRun(lane, 1, map[], {"t"}, states, steps)
    ensures |steps| == 1 && steps[0] == CancelUnstarted("t") && IsLeftBehind(lane, states[1], "t")
    ensures forall more: seq<State>, moves: seq<Step> |
              IsRun(lane, 1, map[], {"t"}, more, moves) && moves != [] && moves[0] == steps[0] ::
                IsStranded(lane, more, moves)
  {
    states, steps := Stranding(lane, handle), [CancelUnstarted("t")];
    StrandingIsRun(lane, handle);
    forall more: seq<State>, moves: seq<Step> |
      IsRun(lane, 1, map[], {"t"}, more, moves) && moves != [] && moves[0] == CancelUnstarted("t")
      ensures IsStranded(lane, more, moves)
    {
      forall j: nat | 1 <= j < |moves| ensures IsLeftBehind(lane, more[j], "t") && !moves[j].Claim? {
        StrandedByOne(lane, more, moves, j);
      }
    }
  }

  /** After the first step the task's slot waits for ever and the lane claims nothing. */
  ghost predicate IsStranded(lane: Lane, states: seq<State>, steps: seq<Step>)
    requires |states| >= |steps|
  {
    forall j: nat | 1 <= j < |steps| :: IsLeftBehind(lane, states[j], "t") && !steps[j].Claim?
  }

  function Stranding(lane: Lane, handle: int): seq<State>
  {
    var slots: Slots := map[lane := map["t" := Occupant(handle, true)]];
    [State(slots, 1, {}, {"t"}), State(slots, 1, {}, {})]
  }

  lemma StrandingIsRun(lane: Lane, handle: int)
    ensures var states, steps := Stranding(lane, handle), [CancelUnstarted("t")];
            IsRun(lane, 1, map[], {"t"}, states, steps) && IsLeftBehind(lane, states[1], "t")
  {
    var states := Stranding(lane, handle);
    var bucket := BucketOf(states[0].slots, lane);
    assert "t" in bucket && bucket.Keys == {"t"};
    assert InFlight(bucket) == {};
    assert states[0].waiting - {"t"} == {};
    assert Next(lane, 1, states[0], CancelUnstarted("t"), states[1]);
  }

  lemma StrandedByOne(lane: Lane, states: seq<State>, steps: seq<Step>, j: nat)
    requires IsRun(lane, 1, map[], {"t"}, states, steps) && 1 <= j < |steps| && steps[0] == CancelUnstarted("t")
    ensures IsLeftBehind(lane, states[j], "t") && !steps[j].Claim?
  {
    assert steps[..1][0] == CancelUnstarted("t");
    assert "t" in LeakedBy(steps[..1]);
    SubsetSize({"t"}, LeakedBy(steps[..1]));
    LeftBehindStarves(lane, 1, map[], {"t"}, states, steps, 1, j);
    LeakedGrows(steps, 1, j);
    WaitingOrLeftBehind(lane, 1, map[], {"t"}, states, steps, j);
  }
}
