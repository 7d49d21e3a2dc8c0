/** The sliding-window rate limiter: a log of recent grants per model, pruned as it is read. Times are in seconds. */
module RateLimiter {

  const WINDOW := 60.0

  /** One pass under the lock either grants the request or tells the caller how long to sleep. */
  datatype Turn = Granted | Sleep(seconds: real)

  /** Drops leading timestamps more than a window old. */
  function Pruned(log: seq<real>, now: real): seq<real>
  {
    if log != [] && now - log[0] > WINDOW then Pruned(log[1..], now) else log
  }

  function Last(log: seq<real>): real
    requires log != []
  {
    log[|log| - 1]
  }

  function Max(a: real, b: real): real
  {
    if a >= b then a else b
  }

  /** Until the oldest timestamp falls out of the window, with a tenth of a second to spare. */
  function UntilOldestExpires(log: seq<real>, now: real): real
    requires log != []
  {
    WINDOW - (now - log[0]) + 0.1
  }

  /** acquire(): the clock is read at the top, for the gap and for the grant. */
  function SyncTurn(kept: seq<real>, limit: int, gap: real, now: real, second: real, third: real): (seq<real>, Turn)
    requires limit > 0
  {
    var log := Pruned(kept, now);
    if log != [] && second - Last(log) < gap then (log, Sleep(gap - (second - Last(log))))
    else if |log| < limit then (log + [third], Granted)
    else (log, Sleep(Max(UntilOldestExpires(log, now), 0.0)))
  }

  /** acquire_async(): one reading, and the longer of both waits. */
  function AsyncTurn(kept: seq<real>, limit: int, gap: real, now: real): (seq<real>, Turn)
    requires limit > 0
  {
    var log := Pruned(kept, now);
    var forGap := if log != [] && now - Last(log) < gap then gap - (now - Last(log)) else 0.0;
    var needed := if |log| >= limit then Max(forGap, UntilOldestExpires(log, now)) else forGap;
    if needed == 0.0 && |log| < limit then (log + [now], Granted)
    else (log, Sleep(if needed > 0.0 then needed else 0.1))
  }

  class Limiter {
    const limits: map<string, int>
    const gap: real
    var logs: map<string, seq<real>>

    constructor (limits: map<string, int>, gap: real)
      ensures this.limits == limits && this.gap == gap && logs == map[]
    {
      this.limits := limits;
      this.gap := gap;
      logs := map[];
    }

    predicate IsLimited(model: string)
    {
      model in limits && limits[model] > 0
    }

    ghost function LogOf(model: string): seq<real>
      reads this
    {
      if model in logs then logs[model] else []
    }

    method Prune(model: string, now: real)
      requires model in logs
      modifies this
      ensures logs == old(logs)[model := Pruned(old(logs)[model], now)]
    {
      var log := logs[model];
      while log != [] && now - log[0] > WINDOW
        invariant Pruned(log, now) == Pruned(old(logs)[model], now)
      {
        log := log[1..];
      }
      logs := logs[model := log];
    }

    /** One pass of acquire's loop; None when the model is not limited. */
    method TrySync(model: string, now: real, second: real, third: real) returns (turn: Turn)
      modifies this
      ensures !IsLimited(model) ==> turn == Granted && logs == old(logs)
      ensures IsLimited(model) ==>
                && (LogOf(model), turn) == SyncTurn(old(LogOf(model)), limits[model], gap, now, second, third)
                && forall other | other != model :: LogOf(other) == old(LogOf(other))
    {
      if !IsLimited(model) {
        return Granted;
      }
      if model !in logs {
        logs := logs[model := []];
      }
      Prune(model, now);
      var log := logs[model];
      if log != [] {
        var since := second - log[|log| - 1];
        if since < gap {
          return Sleep(gap - since);
        }
      }
      if |log| < limits[model] {
        logs := logs[model := log + [third]];
        return Granted;
      }
      var wait := WINDOW - (now - log[0]) + 0.1;
      return Sleep(if wait > 0.0 then wait else 0.0);
    }

    /**
     One pass of acquire_async's loop. The lock is free while the caller sleeps, so others may take turns in between.
     */
    method TryAsync(model: string, now: real) returns (turn: Turn)
      modifies this
      ensures !IsLimited(model) ==> turn == Granted && logs == old(logs)
      ensures IsLimited(model) ==>
                && (LogOf(model), turn) == AsyncTurn(old(LogOf(model)), limits[model], gap, now)
                && forall other | other != model :: LogOf(other) == old(LogOf(other))
    {
      if !IsLimited(model) {
        return Granted;
      }
      if model !in logs {
        logs := logs[model := []];
      }
      Prune(model, now);
      var log := logs[model];
      var needed := 0.0;
      if log != [] {
        var since := now - log[|log| - 1];
        if since < gap {
          needed := gap - since;
        }
      }
      if |log| >= limits[model] {
        needed := Max(needed, WINDOW - (now - log[0]) + 0.1);
      }
      if needed == 0.0 && |log| < limits[model] {
        logs := logs[model := log + [now]];
        return Granted;
      }
      return Sleep(if needed > 0.0 then needed else 0.1);
    }

    /** acquire(): pass after pass until one grants, or until the clock readings given here are used up. */
    method Acquire(model: string, readings: seq<(real, real, real)>) returns (granted: bool, used: nat)
      modifies this
      ensures used <= |readings|
      ensures !IsLimited(model) ==> granted && logs == old(logs)
      ensures IsLimited(model) ==>
                && (LogOf(model), granted) == AfterPasses(old(LogOf(model)), limits[model], gap, readings[..used])
                && (granted || used == |readings|)
                && forall other | other != model :: LogOf(other) == old(LogOf(other))
    {
      used := 0;
      granted := !IsLimited(model);
      while !granted && used < |readings|
        invariant used <= |readings|
        invariant !IsLimited(model) ==> granted && logs == old(logs)
        invariant IsLimited(model) ==>
            (LogOf(model), granted) == AfterPasses(old(LogOf(model)), limits[model], gap, readings[..used])
            && forall other | other != model :: LogOf(other) == old(LogOf(other))
      {
        var turn := TrySync(model, readings[used].0, readings[used].1, readings[used].2);
        assert readings[..used + 1][..used] == readings[..used];
        granted := turn.Granted?;
        used := used + 1;
      }
    }
  }

  /** The log after a number of passes, and whether the last of them granted the request. */
  function AfterPasses(log: seq<real>, limit: int, gap: real, readings: seq<(real, real, real)>): (seq<real>, bool)
    requires limit > 0
  {
    if readings == [] then (log, false)
    else
      var before := AfterPasses(log, limit, gap, readings[..|readings| - 1]);
      var last := readings[|readings| - 1];
      var after := SyncTurn(before.0, limit, gap, last.0, last.1, last.2);
      (after.0, after.1.Granted?)
  }
}
