/** What the limiter guarantees about every window of every run, although it forgets old grants. */
module RateRuns {
  import opened RateLimiter

  /** One model's log, all grants there ever were, and the latest clock reading anyone has taken. */
  datatype State = State(kept: seq<real>, grants: seq<real>, clock: real)

  /** A pass of acquire with its three readings, or of acquire_async with its one. */
  datatype Event = Sync(now: real, second: real, third: real) | Async(at: real)

  function FirstReading(event: Event): real
  {
    match event case Sync(now, _, _) => now case Async(at) => at
  }

  function LastReading(event: Event): real
  {
    match event case Sync(_, _, third) => third case Async(at) => at
  }

  /** The clock never goes back, and the pass does what the limiter does. */
  ghost predicate Next(limit: int, gap: real, s: State, event: Event, s': State)
    requires limit > 0
  {
    && s.clock <= FirstReading(event)
    && (event.Sync? ==> event.now <= event.second <= event.third)
    && s'.clock == LastReading(event)
    && var after := match event
                    case Sync(now, second, third) => SyncTurn(s.kept, limit, gap, now, second, third)
                    case Async(at) => AsyncTurn(s.kept, limit, gap, at);
       && s'.kept == after.0
       && s'.grants == if after.1.Granted? then s.grants + [s'.clock] else s.grants
  }

  ghost predicate IsRun(limit: int, gap: real, states: seq<State>, events: seq<Event>)
    requires limit > 0
  {
    && |states| == |events| + 1
    && states[0].kept == [] && states[0].grants == []
    && forall i | 0 <= i < |events| :: Next(limit, gap, states[i], events[i], states[i + 1])
  }

  // ----- what every state keeps

  predicate IsSorted(s: seq<real>)
  {
    forall i, j | 0 <= i <= j < |s| :: s[i] <= s[j]
  }

  /** Any limit+1 grants in a row span more than a window. */
  ghost predicate IsSpread(grants: seq<real>, limit: int)
  {
    forall i, j | 0 <= i <= j < |grants| && j - i >= limit :: grants[j] - grants[i] > WINDOW
  }

  /** Grants follow each other at the gap, or after more than a window. */
  ghost predicate IsGapped(grants: seq<real>, gap: real)
  {
    forall i | 0 < i < |grants| :: grants[i] - grants[i - 1] >= gap || grants[i] - grants[i - 1] > WINDOW
  }

  ghost predicate IsTail(kept: seq<real>, grants: seq<real>)
  {
    |kept| <= |grants| && kept == grants[|grants| - |kept|..]
  }

  ghost predicate IsPast(grants: seq<real>, clock: real)
  {
    forall i | 0 <= i < |grants| :: grants[i] <= clock
  }

  /** The first `count` grants are more than a window old. */
  ghost predicate IsForgotten(grants: seq<real>, count: int, clock: real)
  {
    forall i | 0 <= i < count && i < |grants| :: clock - grants[i] > WINDOW
  }

  /** The log is the recent end of the history; what it has forgotten is more than a window old. */
  ghost predicate IsSound(limit: int, gap: real, s: State)
  {
    && IsTail(s.kept, s.grants) && |s.kept| <= limit
    && IsPast(s.grants, s.clock) && IsForgotten(s.grants, |s.grants| - |s.kept|, s.clock)
    && IsSorted(s.grants) && IsSpread(s.grants, limit) && IsGapped(s.grants, gap)
  }

  /** Pruning forgets only what is more than a window old, and nothing that is not. */
  lemma {:induction false} PrunedForgets(s: State, limit: int, gap: real, now: real)
    requires limit > 0 && IsSound(limit, gap, s) && s.clock <= now
    ensures var log := Pruned(s.kept, now);
            IsSound(limit, gap, State(log, s.grants, now)) && (log != [] ==> now - log[0] <= WINDOW)
    decreases |s.kept|
  {
    if s.kept != [] && now - s.kept[0] > WINDOW {
      var at := |s.grants| - |s.kept|;
      assert s.kept[0] == s.grants[at];
      assert s.kept[1..] == s.grants[at + 1..];
      PrunedForgets(State(s.kept[1..], s.grants, now), limit, gap, now);
    }
  }

  lemma SpreadMore(limit: int, grants: seq<real>, forgotten: int, clock: real, at: real)
    requires limit > 0 && IsSpread(grants, limit) && clock <= at
    requires IsForgotten(grants, forgotten, clock) && |grants| - limit < forgotten
    ensures IsSpread(grants + [at], limit)
  {
  }

  lemma GappedMore(gap: real, grants: seq<real>, at: real)
    requires IsGapped(grants, gap)
    requires grants != [] ==> at - Last(grants) >= gap || at - Last(grants) > WINDOW
    ensures IsGapped(grants + [at], gap)
  {
  }

  lemma OrderedMore(grants: seq<real>, forgotten: int, clock: real, at: real)
    requires IsSorted(grants) && IsPast(grants, clock) && clock <= at
    requires forgotten <= |grants| && IsForgotten(grants, forgotten, clock)
    ensures IsSorted(grants + [at]) && IsPast(grants + [at], at) && IsForgotten(grants + [at], forgotten, at)
  {
  }

  lemma TailMore(kept: seq<real>, grants: seq<real>, at: real)
    requires IsTail(kept, grants)
    ensures IsTail(kept + [at], grants + [at])
    ensures kept != [] ==> grants != [] && Last(kept) == Last(grants)
  {
    assert (grants + [at])[|grants| - |kept|..] == kept + [at];
  }

  lemma GrantIsSound(limit: int, gap: real, s: State, at: real)
    requires limit > 0 && IsSound(limit, gap, s) && s.clock <= at && |s.kept| < limit
    requires s.kept != [] ==> at - Last(s.kept) >= gap
    ensures IsSound(limit, gap, State(s.kept + [at], s.grants + [at], at))
  {
    var forgotten := |s.grants| - |s.kept|;
    TailMore(s.kept, s.grants, at);
    OrderedMore(s.grants, forgotten, s.clock, at);
    SpreadMore(limit, s.grants, forgotten, s.clock, at);
    assert s.kept == [] && s.grants != [] ==> s.clock - Last(s.grants) > WINDOW;
    GappedMore(gap, s.grants, at);
  }

  lemma StepIsSound(limit: int, gap: real, s: State, event: Event, s': State)
    requires limit > 0 && IsSound(limit, gap, s) && Next(limit, gap, s, event, s')
    ensures IsSound(limit, gap, s')
  {
    var now := FirstReading(event);
    PrunedForgets(s, limit, gap, now);
    var log := Pruned(s.kept, now);
    match event
    case Sync(_, second, third) =>
      LaterIsSound(limit, gap, State(log, s.grants, now), third);
      if SyncTurn(s.kept, limit, gap, now, second, third).1.Granted? {
        GrantIsSound(limit, gap, State(log, s.grants, now), third);
      }
    case Async(at) =>
      if AsyncTurn(s.kept, limit, gap, at).1.Granted? {
        GrantIsSound(limit, gap, State(log, s.grants, now), at);
      }
  }

  lemma LaterIsSound(limit: int, gap: real, s: State, at: real)
    requires limit > 0 && IsSound(limit, gap, s) && s.clock <= at
    ensures IsSound(limit, gap, s.(clock := at))
  {
  }

  lemma {:induction false} RunIsSound(limit: int, gap: real, states: seq<State>, events: seq<Event>, i: nat)
    requires limit > 0 && IsRun(limit, gap, states, events) && i < |states|
    ensures IsSound(limit, gap, states[i])
  {
    if i > 0 {
      RunIsSound(limit, gap, states, events, i - 1);
      assert Next(limit, gap, states[i - 1], events[i - 1], states[i - 1 + 1]);
      StepIsSound(limit, gap, states[i - 1], events[i - 1], states[i]);
    }
  }

  // ----- the guarantees

  /** The grants that fall in [from, to]. */
  function Within(grants: seq<real>, from: real, to: real): (count: nat)
  {
    if grants == [] then 0
    else Within(grants[..|grants| - 1], from, to) + (if from <= Last(grants) <= to then 1 else 0)
  }

  /** Grants in a window are the last ones up to some point, so they lie close together. */
  lemma {:induction false} WindowIsAStretch(grants: seq<real>, from: real, to: real)
    returns (hi: nat)
    requires IsSorted(grants)
    ensures Within(grants, from, to) <= hi <= |grants|
    ensures forall i | hi - Within(grants, from, to) <= i < hi :: from <= grants[i] <= to
  {
    if grants == [] {
      return 0;
    }
    var n := |grants| - 1;
    hi := WindowIsAStretch(grants[..n], from, to);
    if from <= grants[n] <= to {
      forall i | hi <= i < n ensures Within(grants[..n], from, to) > 0 ==> grants[i] <= to {
        assert grants[i] <= grants[n];
      }
      hi := RestIsInside(grants, from, to, hi);
    }
  }

  /** When the newest grant is in the window, so is everything from the first one that is. */
  lemma RestIsInside(grants: seq<real>, from: real, to: real, hi: nat) returns (end: nat)
    requires IsSorted(grants) && grants != [] && from <= Last(grants) <= to
    requires var count := Within(grants[..|grants| - 1], from, to);
             count <= hi < |grants| && forall i | hi - count <= i < hi :: from <= grants[i] <= to
    ensures end == |grants|
    ensures forall i | end - Within(grants, from, to) <= i < end :: from <= grants[i] <= to
  {
    end := |grants|;
    var count := Within(grants[..|grants| - 1], from, to);
    forall i | end - Within(grants, from, to) <= i < end ensures from <= grants[i] <= to {
      assert grants[i] <= Last(grants);
      if count > 0 {
        assert from <= grants[hi - count] <= grants[i];
      }
    }
  }

  /** Every closed window of sixty seconds, whenever it starts, contains at most `limit` grants. */
  lemma NoWindowOverflows(limit: int, gap: real, states: seq<State>, events: seq<Event>, i: nat, from: real)
    requires limit > 0 && IsRun(limit, gap, states, events) && i < |states|
    ensures Within(states[i].grants, from, from + WINDOW) <= limit
  {
    RunIsSound(limit, gap, states, events, i);
    var grants := states[i].grants;
    var hi := WindowIsAStretch(grants, from, from + WINDOW);
    var count := Within(grants, from, from + WINDOW);
    assert count > 0 ==> grants[hi - 1] - grants[hi - count] <= WINDOW;
  }

  /** All runs of a limiter keep the gap between consecutive grants. */
  ghost predicate KeepsGap(limit: int, gap: real)
    requires limit > 0
  {
    forall states: seq<State>, events: seq<Event>, i: nat, k |
      IsRun(limit, gap, states, events) && i < |states| && 0 < k < |states[i].grants| ::
      states[i].grants[k] - states[i].grants[k - 1] >= gap
  }

  /** The gap is kept in every run exactly when it is no longer than the window: the log forgets a grant after that. */
  lemma GapIsKeptIffWithinWindow(limit: int, gap: real)
    requires limit > 0
    ensures KeepsGap(limit, gap) <==> gap <= WINDOW
  {
    if gap <= WINDOW {
      forall states: seq<State>, events: seq<Event>, i: nat, k |
        IsRun(limit, gap, states, events) && i < |states| && 0 < k < |states[i].grants|
        ensures states[i].grants[k] - states[i].grants[k - 1] >= gap
      {
        RunIsSound(limit, gap, states, events, i);
      }
    } else {
      ForgottenGap(limit, gap);
    }
  }

  /** With a longer gap, a second request is granted as soon as the first has been forgotten. */
  lemma ForgottenGap(limit: int, gap: real)
    requires limit > 0 && gap > WINDOW
    ensures !KeepsGap(limit, gap)
  {
    var later := (WINDOW + gap) / 2.0;
    assert WINDOW < later < gap;
    var first := State([0.0], [0.0], 0.0);
    var second := State([later], [0.0, later], later);
    var states, events := [State([], [], 0.0), first, second], [Async(0.0), Async(later)];
    assert Pruned([0.0], later) == Pruned([], later) by {
      assert [0.0][1..] == [];
    }
    assert Next(limit, gap, states[0], events[0], states[1]);
    assert Next(limit, gap, states[1], events[1], states[2]);
    assert IsRun(limit, gap, states, events);
    assert states[2].grants[1] - states[2].grants[1 - 1] < gap;
  }

  // ----- nobody waits without need

  /** Of a history whose last part is recent and whose first part is not, a window up to now has the last part. */
  lemma {:induction false} RecentAreCounted(grants: seq<real>, log: seq<real>, now: real)
    requires IsTail(log, grants)
    requires forall i | 0 <= i < |grants| - |log| :: now - grants[i] > WINDOW
    requires forall i | 0 <= i < |log| :: log[i] <= now && now - log[i] <= WINDOW
    ensures Within(grants, now - WINDOW, now) == |log|
  {
    if grants != [] {
      var n := |grants| - 1;
      if log == [] {
        assert grants[..n][n..] == [];
        RecentAreCounted(grants[..n], [], now);
      } else {
        var at := |grants| - |log|;
        assert grants[..n][at..] == log[..|log| - 1];
        assert Last(grants) == log[|log| - 1];
        RecentAreCounted(grants[..n], log[..|log| - 1], now);
      }
    }
  }

  lemma PrunedIsWindow(limit: int, gap: real, s: State, now: real)
    requires limit > 0 && IsSound(limit, gap, s) && s.clock <= now
    ensures var log := Pruned(s.kept, now);
            && |log| == Within(s.grants, now - WINDOW, now)
            && (log == [] <==> s.grants == [] || now - Last(s.grants) > WINDOW)
            && (log != [] ==> Last(log) == Last(s.grants))
  {
    var log := Pruned(s.kept, now);
    PrunedForgets(s, limit, gap, now);
    var at := |s.grants| - |log|;
    forall i | 0 <= i < |log| ensures log[i] <= now && now - log[i] <= WINDOW {
      assert log[i] == s.grants[at + i] && log[0] == s.grants[at];
    }
    RecentAreCounted(s.grants, log, now);
    if log != [] {
      assert log[|log| - 1] == s.grants[at + (|log| - 1)];
    }
  }

  /** The reading a pass compares with the last grant. */
  function GapReading(event: Event): real
  {
    match event case Sync(_, second, _) => second case Async(at) => at
  }

  /**
   A pass grants exactly when there is room: fewer than `limit` grants in the sixty seconds up to its first reading, and
   the last of those, if there is one, at least the gap ago.
   */
  lemma GrantedIffRoom(limit: int, gap: real, s: State, event: Event, s': State)
    requires limit > 0 && IsSound(limit, gap, s) && Next(limit, gap, s, event, s')
    ensures var now := FirstReading(event);
            s'.grants == s.grants + [LastReading(event)] <==>
            && Within(s.grants, now - WINDOW, now) < limit
            && (s.grants != [] && now - Last(s.grants) <= WINDOW ==> GapReading(event) - Last(s.grants) >= gap)
    ensures s'.grants == s.grants || s'.grants == s.grants + [LastReading(event)]
  {
    PrunedIsWindow(limit, gap, s, FirstReading(event));
  }

  /** With a gap of at most the window, a caller of acquire_async that woke earlier would be turned away again. */
  lemma WaitIsNeeded(kept: seq<real>, limit: int, gap: real, now: real, later: real)
    requires limit > 0 && gap <= WINDOW && IsSorted(kept) && now <= later
    requires var turn := AsyncTurn(kept, limit, gap, now).1;
             turn.Sleep? && later <= now + turn.seconds - 0.1
    ensures AsyncTurn(AsyncTurn(kept, limit, gap, now).0, limit, gap, later).1.Sleep?
  {
    var log := Pruned(kept, now);
    PrunedIsSuffix(kept, now);
    PrunedIsSuffix(log, later);
    if log != [] && later - Last(log) <= WINDOW {
      LastStays(log, later);
    }
  }

  lemma {:induction false} LastStays(log: seq<real>, now: real)
    requires log != [] && now - Last(log) <= WINDOW
    ensures Pruned(log, now) != [] && Last(Pruned(log, now)) == Last(log)
  {
    if now - log[0] > WINDOW {
      LastStays(log[1..], now);
    }
  }

  // ----- waiting helps

  /** Whoever sleeps as long as acquire_async was told, and finds the log as it left it, is granted the request. */
  lemma SleepingIsEnough(kept: seq<real>, limit: int, gap: real, now: real, later: real)
    requires limit > 0 && |kept| <= limit
    requires var turn := AsyncTurn(kept, limit, gap, now).1; turn.Sleep? && later >= now + turn.seconds
    ensures AsyncTurn(AsyncTurn(kept, limit, gap, now).0, limit, gap, later).1 == Granted
  {
    var log := Pruned(kept, now);
    PrunedIsSuffix(kept, now);
    PrunedIsSuffix(log, later);
    if |log| >= limit {
      PrunedDrops(log, later);
    }
  }

  /**
   Whoever sleeps as long as acquire was told, and finds the log as it left it, sleeps at most twice: once for the gap
   and once for room. `passes` are the readings of the first, second and third pass.
   */
  lemma TwoSleepsAreEnough(kept: seq<real>, limit: int, gap: real, a: Event, b: Event, c: Event)
    requires limit > 0 && |kept| <= limit && IsPass(a) && IsPass(b) && IsPass(c)
    requires HasSlept(SyncPass(kept, limit, gap, a).1, a, b)
    requires HasSlept(SyncPass(SyncPass(kept, limit, gap, a).0, limit, gap, b).1, b, c)
    ensures SyncPass(SyncPass(SyncPass(kept, limit, gap, a).0, limit, gap, b).0, limit, gap, c).1 == Granted
  {
    var one := SyncPass(kept, limit, gap, a).0;
    PrunedIsSuffix(kept, a.now);
    SleepClears(kept, limit, gap, a, b);
    var two := SyncPass(one, limit, gap, b).0;
    PrunedIsSuffix(one, b.now);
    SleepClears(one, limit, gap, b, c);
  }

  /** The readings of one pass of acquire, in the order in which they are taken. */
  predicate IsPass(event: Event)
  {
    event.Sync? && event.now <= event.second <= event.third
  }

  function SyncPass(kept: seq<real>, limit: int, gap: real, event: Event): (seq<real>, Turn)
    requires limit > 0 && event.Sync?
  {
    SyncTurn(kept, limit, gap, event.now, event.second, event.third)
  }

  /** The pass was told to sleep, and the next one begins after that. */
  predicate HasSlept(turn: Turn, event: Event, next: Event)
    requires event.Sync? && next.Sync?
  {
    turn.Sleep? && next.now >= event.second + turn.seconds
  }

  /** The pass does not have to wait for the gap. */
  predicate IsPastGap(kept: seq<real>, gap: real, event: Event)
    requires event.Sync?
  {
    var log := Pruned(kept, event.now);
    log == [] || event.second - Last(log) >= gap
  }

  lemma SleepClears(kept: seq<real>, limit: int, gap: real, a: Event, b: Event)
    requires limit > 0 && |kept| <= limit && IsPass(a) && IsPass(b)
    requires HasSlept(SyncPass(kept, limit, gap, a).1, a, b)
    ensures IsPastGap(SyncPass(kept, limit, gap, a).0, gap, b)
    ensures IsPastGap(kept, gap, a) ==> SyncPass(SyncPass(kept, limit, gap, a).0, limit, gap, b).1 == Granted
  {
    var log := Pruned(kept, a.now);
    PrunedIsSuffix(kept, a.now);
    PrunedIsSuffix(log, b.now);
    if IsPastGap(kept, gap, a) {
      PrunedDrops(log, b.now);
    }
  }

  /** With a gap of at most the window, a caller of acquire that woke earlier would be turned away again. */
  lemma SyncWaitIsNeeded(kept: seq<real>, limit: int, gap: real, a: Event, b: Event)
    requires limit > 0 && gap <= WINDOW && IsPass(a) && IsPass(b) && a.second <= b.now
    requires var turn := SyncPass(kept, limit, gap, a).1;
             && turn.Sleep?
             && if IsPastGap(kept, gap, a) then b.now <= a.now + turn.seconds - 0.1
                else b.second < a.second + turn.seconds
    ensures SyncPass(SyncPass(kept, limit, gap, a).0, limit, gap, b).1.Sleep?
  {
    var log := Pruned(kept, a.now);
    PrunedIsSuffix(kept, a.now);
    if !IsPastGap(kept, gap, a) {
      LastStays(log, b.now);
    }
  }

  lemma PrunedDrops(log: seq<real>, now: real)
    requires log != [] && now - log[0] > WINDOW
    ensures |Pruned(log, now)| < |log|
  {
    PrunedIsSuffix(log[1..], now);
  }

  lemma {:induction false} PrunedIsSuffix(log: seq<real>, now: real)
    ensures |Pruned(log, now)| <= |log|
    ensures Pruned(log, now) != [] ==> Last(Pruned(log, now)) == Last(log) && now - Pruned(log, now)[0] <= WINDOW
  {
    if log != [] && now - log[0] > WINDOW {
      PrunedIsSuffix(log[1..], now);
    }
  }
}
