/** Sharing an episode's seconds among its shots, and turning the shares into durations a provider supports. */
module Durations {
  import opened Wrappers
  import opened Numbers

  datatype Strategy = Equal | Proportional | Manual

  datatype Shot = Shot(
    id: string, current: Option<int>, supported: seq<int>, locked: bool, generated: bool, weight: real)

  datatype Reason = ProviderMin | ProviderMax | NearestSupported

  datatype Allocation = Allocation(
    id: string, current: Option<int>, share: Option<int>, requested: Option<int>, locked: bool, generated: bool,
    reason: Option<Reason>)

  datatype PlanError =
    | TargetNotPositive | DuplicateId | NoId | CurrentNotPositive | WeightNotPositive | NoSupported
    | SupportedNotPositive
    | BelowFixed | ManualMissing | ManualNotPositive

  predicate IsAdjustable(shot: Shot)
  {
    !shot.locked && !shot.generated
  }

  // ----- sums

  function Sum(s: seq<int>): int
  {
    if s == [] then 0 else Sum(s[..|s| - 1]) + s[|s| - 1]
  }

  function SumR(s: seq<real>): real
  {
    if s == [] then 0.0 else SumR(s[..|s| - 1]) + s[|s| - 1]
  }

  // ----- shares by largest remainder

  predicate AllPositive(weights: seq<real>)
  {
    forall i | 0 <= i < |weights| :: weights[i] > 0.0
  }

  lemma {:induction false} SumIsPositive(weights: seq<real>)
    requires AllPositive(weights)
    ensures SumR(weights) >= 0.0 && (weights != [] ==> SumR(weights) > 0.0)
  {
    if weights != [] {
      SumIsPositive(weights[..|weights| - 1]);
    }
  }

  /** One shot's exact quota: its weight's part of what remains. */
  function Quota(remaining: int, weight: real, total: real): real
    requires total > 0.0
  {
    remaining as real * weight / total
  }

  function Quotas(remaining: int, weights: seq<real>): (r: seq<real>)
    requires AllPositive(weights)
    ensures |r| == |weights|
  {
    SumIsPositive(weights);
    seq(|weights|, i requires 0 <= i < |weights| => Quota(remaining, weights[i], SumR(weights)))
  }

  function Floors(quotas: seq<real>): (r: seq<int>)
    ensures |r| == |quotas|
  {
    seq(|quotas|, i requires 0 <= i < |quotas| => quotas[i].Floor)
  }

  function Remainder(q: real): (r: real)
    ensures 0.0 <= r < 1.0
  {
    q - q.Floor as real
  }

  /** Shot i gets an extra second before shot j: larger remainder, or the same and earlier. */
  predicate Beats(quotas: seq<real>, i: int, j: int)
    requires 0 <= i < |quotas| && 0 <= j < |quotas|
  {
    || Remainder(quotas[i]) > Remainder(quotas[j])
    || (Remainder(quotas[i]) == Remainder(quotas[j]) && i < j)
  }

  /** The best shot among the first `n` that is not in `taken`. */
  function Best(quotas: seq<real>, taken: set<int>, n: nat): (r: Option<int>)
    requires n <= |quotas|
    ensures r.None? ==> forall i | 0 <= i < n :: i in taken
    ensures r.Some? ==> 0 <= r.value < n && r.value !in taken
    ensures r.Some? ==> forall i | 0 <= i < n && i !in taken && i != r.value :: Beats(quotas, r.value, i)
  {
    if n == 0 then None
    else
      var before := Best(quotas, taken, n - 1);
      if n - 1 in taken then before
      else if before.None? || Beats(quotas, n - 1, before.value) then Some(n - 1)
      else before
  }

  /** The `k` shots that get an extra second. */
  function Winners(quotas: seq<real>, k: nat): (w: set<int>)
    ensures forall i | i in w :: 0 <= i < |quotas|
  {
    if k == 0 then {}
    else
      WithBest(quotas, Winners(quotas, k - 1))
  }

  /** One more shot: the best of those not taken, if there is one. */
  function WithBest(quotas: seq<real>, taken: set<int>): set<int>
  {
    match Best(quotas, taken, |quotas|)
    case None => taken
    case Some(i) => taken + {i}
  }

  lemma {:induction false} WinnersBeatOthers(quotas: seq<real>, k: nat, i: int, j: int)
    requires i in Winners(quotas, k) && 0 <= j < |quotas| && j !in Winners(quotas, k)
    ensures Beats(quotas, i, j)
  {
    if i in Winners(quotas, k - 1) {
      WinnersBeatOthers(quotas, k - 1, i, j);
    }
  }

  lemma {:induction false} WinnersCount(quotas: seq<real>, k: nat)
    requires k <= |quotas|
    ensures |Winners(quotas, k)| == k
  {
    if k > 0 {
      WinnersCount(quotas, k - 1);
      OneMoreWinner(quotas, Winners(quotas, k - 1));
    }
  }

  /** As long as not all shots are taken there is a best one among the others. */
  lemma OneMoreWinner(quotas: seq<real>, taken: set<int>)
    requires |taken| < |quotas|
    ensures |WithBest(quotas, taken)| == |taken| + 1
  {
    if Best(quotas, taken, |quotas|).None? {
      FullSet(taken, |quotas|);
    }
  }

  lemma {:induction false} FullSet(s: set<int>, n: nat)
    requires forall i | 0 <= i < n :: i in s
    ensures |s| >= n
  {
    if n > 0 {
      FullSet(s - {n - 1}, n - 1);
    }
  }

  function Leftovers(remaining: int, quotas: seq<real>): int
  {
    remaining - Sum(Floors(quotas))
  }

  /** Every shot's seconds: the floor of its quota, and one more for the winners. */
  function Shares(remaining: int, weights: seq<real>): (r: seq<int>)
    requires AllPositive(weights)
    ensures |r| == |weights|
  {
    var quotas := Quotas(remaining, weights);
    var left := Leftovers(remaining, quotas);
    var winners := if left > 0 then Winners(quotas, left) else {};
    Raised(Floors(quotas), winners)
  }

  function Raised(values: seq<int>, winners: set<int>): (r: seq<int>)
    ensures |r| == |values|
  {
    seq(|values|, i requires 0 <= i < |values| => if i in winners then values[i] + 1 else values[i])
  }

  // ----- the shares add up

  lemma QuotaTimesTotal(remaining: int, weight: real, total: real)
    requires total > 0.0
    ensures Quota(remaining, weight, total) * total == remaining as real * weight
  {
  }

  lemma DistributesR(c: real, a: real, b: real)
    ensures c * (a + b) == c * a + c * b
  {
  }

  /** Multiplied by the total weight, quotas add up to the weights' share of what remains. */
  lemma {:induction false} QuotasSum(remaining: int, weights: seq<real>, total: real, quotas: seq<real>)
    requires total > 0.0 && |quotas| == |weights|
    requires forall i | 0 <= i < |weights| :: quotas[i] == Quota(remaining, weights[i], total)
    ensures total * SumR(quotas) == remaining as real * SumR(weights)
  {
    if weights != [] {
      var n := |weights| - 1;
      QuotasSum(remaining, weights[..n], total, quotas[..n]);
      QuotaTimesTotal(remaining, weights[n], total);
      DistributesR(total, SumR(quotas[..n]), quotas[n]);
      DistributesR(remaining as real, SumR(weights[..n]), weights[n]);
    }
  }

  lemma CancelR(total: real, a: real, b: real)
    requires total > 0.0 && total * a == b * total
    ensures a == b
  {
  }

  lemma QuotasAddUp(remaining: int, weights: seq<real>)
    requires AllPositive(weights) && weights != []
    ensures SumR(Quotas(remaining, weights)) == remaining as real
  {
    SumIsPositive(weights);
    QuotasSum(remaining, weights, SumR(weights), Quotas(remaining, weights));
    CancelR(SumR(weights), SumR(Quotas(remaining, weights)), remaining as real);
  }

  lemma {:induction false} FloorsAreClose(quotas: seq<real>)
    ensures Sum(Floors(quotas)) as real <= SumR(quotas)
    ensures quotas != [] ==> SumR(quotas) < (Sum(Floors(quotas)) + |quotas|) as real
  {
    if quotas != [] {
      var n := |quotas| - 1;
      FloorsAreClose(quotas[..n]);
      assert Floors(quotas)[..n] == Floors(quotas[..n]);
      assert quotas[n] - 1.0 < quotas[n].Floor as real <= quotas[n];
    }
  }

  /** There are fewer extra seconds than shots. */
  lemma LeftoversAreFew(remaining: int, weights: seq<real>)
    requires AllPositive(weights) && weights != []
    ensures 0 <= Leftovers(remaining, Quotas(remaining, weights)) < |weights|
  {
    var quotas := Quotas(remaining, weights);
    QuotasAddUp(remaining, weights);
    FloorsAreClose(quotas);
  }

  lemma {:induction false} RaisedSum(values: seq<int>, winners: set<int>)
    requires forall i | i in winners :: 0 <= i < |values|
    ensures Sum(Raised(values, winners)) == Sum(values) + |winners|
  {
    if values == [] {
      assert forall i :: i !in winners;
      assert |winners| == 0;
    } else {
      var n := |values| - 1;
      var rest := winners - {n};
      RaisedSum(values[..n], rest);
      assert Raised(values, winners)[..n] == Raised(values[..n], rest);
      assert n in winners ==> winners == rest + {n};
      assert n !in winners ==> winners == rest;
    }
  }

  /** The shares of at least one shot add up to exactly what was to be shared. */
  lemma SharesAddUp(remaining: int, weights: seq<real>)
    requires AllPositive(weights) && weights != []
    ensures Sum(Shares(remaining, weights)) == remaining
  {
    var quotas := Quotas(remaining, weights);
    var left := Leftovers(remaining, quotas);
    LeftoversAreFew(remaining, weights);
    WinnersCount(quotas, left);
    RaisedSum(Floors(quotas), Winners(quotas, left));
  }

  /**
   Each share is the floor of its quota or one more, and the extra seconds go to the largest remainders, earlier shots
   first.
   */
  lemma SharesAreFair(remaining: int, weights: seq<real>, i: nat, j: nat)
    requires AllPositive(weights) && i < |weights| && j < |weights|
    ensures var quotas, shares := Quotas(remaining, weights), Shares(remaining, weights);
            && (shares[i] == quotas[i].Floor || shares[i] == quotas[i].Floor + 1)
            && (shares[i] == quotas[i].Floor + 1 && shares[j] == quotas[j].Floor ==> Beats(quotas, i, j))
  {
    var quotas := Quotas(remaining, weights);
    var left := Leftovers(remaining, quotas);
    if left > 0 && i in Winners(quotas, left) && j !in Winners(quotas, left) {
      WinnersBeatOthers(quotas, left, i, j);
    }
  }

  // ----- the code's way: sort, then take the first ones

  /** `order` lists 0..n-1, better shots first. */
  ghost predicate IsRanking(quotas: seq<real>, order: seq<int>, n: nat)
    requires n <= |quotas|
  {
    && |order| == n
    && (forall k | 0 <= k < |order| :: 0 <= order[k] < n)
    && (forall i | 0 <= i < n :: i in order)
    && forall a, b | 0 <= a < b < |order| :: order[a] != order[b] && Beats(quotas, order[a], order[b])
  }

  lemma BeatsIsTransitive(quotas: seq<real>, i: int, j: int, k: int)
    requires 0 <= i < |quotas| && 0 <= j < |quotas| && 0 <= k < |quotas|
    ensures Beats(quotas, i, j) && Beats(quotas, j, k) ==> Beats(quotas, i, k)
    ensures i != j ==> (Beats(quotas, i, j) <==> !Beats(quotas, j, i))
  {
  }

  method RankByRemainder(quotas: seq<real>) returns (order: seq<int>)
    ensures IsRanking(quotas, order, |quotas|)
  {
    order := [];
    for n := 0 to |quotas|
      invariant IsRanking(quotas, order, n)
    {
      var at := n;
      while at > 0 && Beats(quotas, n, order[at - 1])
        invariant 0 <= at <= n
        invariant forall b | at <= b < n :: Beats(quotas, n, order[b])
      {
        at := at - 1;
      }
      InsertIntoRanking(quotas, order, n, at);
      order := order[..at] + [n] + order[at..];
    }
  }

  lemma InsertIntoRanking(quotas: seq<real>, order: seq<int>, n: nat, at: nat)
    requires n < |quotas| && IsRanking(quotas, order, n) && at <= n
    requires forall b | at <= b < n :: Beats(quotas, n, order[b])
    requires at > 0 ==> !Beats(quotas, n, order[at - 1])
    ensures IsRanking(quotas, order[..at] + [n] + order[at..], n + 1)
  {
    var longer := order[..at] + [n] + order[at..];
    InsertKeepsMembers(order, n, at);
    forall a | 0 <= a < at ensures Beats(quotas, order[a], n) {
      EarlierBeats(quotas, order, n, at, a);
    }
    RankingWith(quotas, order, n, at, longer);
  }

  lemma InsertKeepsMembers(order: seq<int>, n: int, at: nat)
    requires at <= |order|
    ensures forall i | i in order || i == n :: i in order[..at] + [n] + order[at..]
  {
    var longer := order[..at] + [n] + order[at..];
    assert longer[at] == n;
    forall i | i in order ensures i in longer {
      var k :| 0 <= k < |order| && order[k] == i;
      assert longer[if k < at then k else k + 1] == i;
    }
  }

  lemma EarlierBeats(quotas: seq<real>, order: seq<int>, n: nat, at: nat, a: nat)
    requires n < |quotas| && IsRanking(quotas, order, n) && a < at <= n && !Beats(quotas, n, order[at - 1])
    ensures Beats(quotas, order[a], n)
  {
    assert a < at - 1 ==> Beats(quotas, order[a], order[at - 1]);
    BeatsIsTransitive(quotas, n, order[at - 1], n);
    BeatsIsTransitive(quotas, order[a], order[at - 1], n);
  }

  lemma RankingWith(quotas: seq<real>, order: seq<int>, n: nat, at: nat, longer: seq<int>)
    requires n < |quotas| && IsRanking(quotas, order, n) && at <= n && |longer| == n + 1
    requires forall k | 0 <= k < at :: longer[k] == order[k]
    requires longer[at] == n
    requires forall k | at < k <= n :: longer[k] == order[k - 1]
    requires forall b | at <= b < n :: Beats(quotas, n, order[b])
    requires forall a | 0 <= a < at :: Beats(quotas, order[a], n)
    ensures forall a, b | 0 <= a < b <= n :: 0 <= longer[a] <= n && 0 <= longer[b] <= n
                                             && longer[a] != longer[b] && Beats(quotas, longer[a], longer[b])
  {
    forall a, b | 0 <= a < b <= n
      ensures 0 <= longer[a] <= n && 0 <= longer[b] <= n
      ensures longer[a] != longer[b] && Beats(quotas, longer[a], longer[b])
    {
      if a == at {
        assert longer[b] == order[b - 1] && Beats(quotas, n, order[b - 1]);
      } else if b == at {
        assert longer[a] == order[a] && Beats(quotas, order[a], n);
      } else {
        var i, j := if a < at then a else a - 1, if b < at then b else b - 1;
        assert longer[a] == order[i] && longer[b] == order[j];
        assert order[i] != order[j] && Beats(quotas, order[i], order[j]);
      }
    }
  }

  /** The first `k` of a ranking are the winners. */
  lemma {:induction false} FirstAreWinners(quotas: seq<real>, order: seq<int>, k: nat)
    requires IsRanking(quotas, order, |quotas|) && k <= |quotas|
    ensures forall i :: i in order[..k] <==> i in Winners(quotas, k)
  {
    if k > 0 {
      FirstAreWinners(quotas, order, k - 1);
      var taken := Winners(quotas, k - 1);
      assert order[..k] == order[..k - 1] + [order[k - 1]];
      assert order[k - 1] !in order[..k - 1];
      var best := Best(quotas, taken, |quotas|);
      assert best.Some? && best.value in order;
      var p :| 0 <= p < |quotas| && order[p] == best.value;
      NotInPrefix(order, k - 1, p);
      BeatsIsTransitive(quotas, order[k - 1], best.value, order[k - 1]);
    }
  }

  lemma NotInPrefix(order: seq<int>, k: nat, p: nat)
    requires k <= |order| && p < |order| && order[p] !in order[..k]
    ensures p >= k
  {
    assert forall q | 0 <= q < k :: order[..k][q] == order[q];
  }

  lemma NextWinner(quotas: seq<real>, order: seq<int>, k: nat)
    requires IsRanking(quotas, order, |quotas|) && k < |quotas|
    ensures order[k] !in Winners(quotas, k) && Winners(quotas, k + 1) == Winners(quotas, k) + {order[k]}
  {
    FirstAreWinners(quotas, order, k);
    FirstAreWinners(quotas, order, k + 1);
    assert order[..k + 1] == order[..k] + [order[k]];
    assert order[k] !in order[..k];
  }

  lemma RaiseOneMore(values: seq<int>, winners: set<int>, i: int)
    requires 0 <= i < |values| && i !in winners
    ensures Raised(values, winners)[i := Raised(values, winners)[i] + 1] == Raised(values, winners + {i})
  {
  }

  /** Floors first, then one second each for the first of the ranking. */
  method Allocate(remaining: int, weights: seq<real>) returns (shares: seq<int>)
    requires AllPositive(weights) && weights != []
    ensures shares == Shares(remaining, weights)
  {
    var quotas := Quotas(remaining, weights);
    var floors := Floors(quotas);
    shares := floors;
    var left := remaining - Sum(floors);
    LeftoversAreFew(remaining, weights);
    var order := RankByRemainder(quotas);
    for k := 0 to left
      invariant shares == Raised(floors, Winners(quotas, k))
    {
      NextWinner(quotas, order, k);
      RaiseOneMore(floors, Winners(quotas, k), order[k]);
      shares := shares[order[k] := shares[order[k]] + 1];
    }
  }

  // ----- supported durations

  function Least(s: seq<int>): (m: int)
    requires s != []
    ensures m in s && forall v | v in s :: m <= v
  {
    if |s| == 1 then s[0]
    else
      var rest := Least(s[..|s| - 1]);
      assert forall v | v in s :: v in s[..|s| - 1] || v == s[|s| - 1];
      if s[|s| - 1] < rest then s[|s| - 1] else rest
  }

  function Greatest(s: seq<int>): (m: int)
    requires s != []
    ensures m in s && forall v | v in s :: v <= m
  {
    if |s| == 1 then s[0]
    else
      var rest := Greatest(s[..|s| - 1]);
      assert forall v | v in s :: v in s[..|s| - 1] || v == s[|s| - 1];
      if s[|s| - 1] > rest then s[|s| - 1] else rest
  }

  /** The smallest of the closest. */
  function Nearest(target: int, s: seq<int>): (m: int)
    requires s != []
    ensures m in s
    ensures forall v | v in s ::
            Distance(m, target) < Distance(v, target) || (Distance(m, target) == Distance(v, target) && m <= v)
  {
    if |s| == 1 then s[0]
    else
      var rest := Nearest(target, s[..|s| - 1]);
      var last := s[|s| - 1];
      assert forall v | v in s :: v in s[..|s| - 1] || v == last;
      if Distance(last, target) < Distance(rest, target)
          || (Distance(last, target) == Distance(rest, target) && last < rest)
      then last else rest
  }

  /** The duration to ask the provider for, and why it differs. */
  function Clamp(target: int, supported: seq<int>): (int, Option<Reason>)
  {
    if supported == [] then (target, None)
    else if target < Least(supported) then (Least(supported), Some(ProviderMin))
    else if target > Greatest(supported) then (Greatest(supported), Some(ProviderMax))
    else if target in supported then (target, None)
    else (Nearest(target, supported), Some(NearestSupported))
  }

  /**
   Whatever the branch, the request is the closest supported duration, the smaller on ties; a reason is given iff it
   differs.
   */
  lemma ClampIsNearest(target: int, supported: seq<int>)
    requires supported != []
    ensures Clamp(target, supported).0 == Nearest(target, supported)
    ensures Clamp(target, supported).1.None? <==> target in supported
    ensures Clamp(target, supported).1 == Some(ProviderMin) <==> forall v | v in supported :: target < v
    ensures Clamp(target, supported).1 == Some(ProviderMax) <==> forall v | v in supported :: v < target
  {
    var m := Nearest(target, supported);
    assert Least(supported) in supported && Greatest(supported) in supported && m in supported;
  }
}
