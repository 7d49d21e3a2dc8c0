/** Planning an episode's durations, previewing what would change, and applying what the user confirmed. */
module DurationPlan {
  import opened Wrappers
  import opened Durations

  // ----- validation

  predicate DistinctIds(shots: seq<Shot>)
  {
    forall i, j | 0 <= i < j < |shots| :: shots[i].id != shots[j].id
  }

  function ShotFault(shot: Shot): Option<PlanError>
  {
    if shot.id == "" then Some(NoId)
    else if shot.current.Some? && shot.current.value <= 0 then Some(CurrentNotPositive)
    else if shot.weight <= 0.0 then Some(WeightNotPositive)
    else if shot.supported == [] then Some(NoSupported)
    else if exists d | d in shot.supported :: d <= 0 then Some(SupportedNotPositive)
    else None
  }

  /** The first fault in shot order. */
  function FirstFault(shots: seq<Shot>): (r: Option<PlanError>)
    ensures r.None? <==> forall i | 0 <= i < |shots| :: ShotFault(shots[i]).None?
  {
    if shots == [] then None
    else
      var before := FirstFault(shots[..|shots| - 1]);
      assert forall i | 0 <= i < |shots| - 1 :: shots[..|shots| - 1][i] == shots[i];
      if before.Some? then before else ShotFault(shots[|shots| - 1])
  }

  // ----- the plan

  function Adjustable(shots: seq<Shot>): seq<Shot>
  {
    if shots == [] then []
    else Adjustable(shots[..|shots| - 1]) + (if IsAdjustable(shots[|shots| - 1]) then [shots[|shots| - 1]] else [])
  }

  function Seconds(value: Option<int>): int
  {
    if value.Some? then value.value else 0
  }

  function FixedTotal(shots: seq<Shot>): int
  {
    if shots == [] then 0
    else FixedTotal(shots[..|shots| - 1])
         + (if IsAdjustable(shots[|shots| - 1]) then 0 else Seconds(shots[|shots| - 1].current))
  }

  function Ids(shots: seq<Shot>): (r: seq<string>)
  {
    seq(|shots|, i requires 0 <= i < |shots| => shots[i].id)
  }

  /** The weights a strategy goes by. */
  function Weights(shots: seq<Shot>, strategy: Strategy): (r: seq<real>)
  {
    seq(|shots|, i requires 0 <= i < |shots| => if strategy == Equal then 1.0 else shots[i].weight)
  }

  /** {id: share}, when the ids are distinct. */
  function ByIds(ids: seq<string>, shares: seq<int>): (m: map<string, int>)
    requires |ids| == |shares|
  {
    if ids == [] then map[]
    else ByIds(ids[..|ids| - 1], shares[..|ids| - 1])[ids[|ids| - 1] := shares[|ids| - 1]]
  }

  /** The seconds of each adjustable shot. */
  function SharesFor(
    remaining: int, ids: seq<string>, weights: seq<real>, strategy: Strategy, manual: map<string, int>)
    : Result<map<string, int>, PlanError>
    requires |ids| == |weights| && AllPositive(weights)
  {
    if ids == [] then Ok(map[])
    else if strategy == Manual then
      if exists id | id in ids :: id !in manual then Err(ManualMissing)
      else if exists id | id in ids :: manual[id] <= 0 then Err(ManualNotPositive)
      else Ok(map id | id in ids :: manual[id])
    else Ok(ByIds(ids, Shares(remaining, weights)))
  }

  function MakeAllocation(shot: Shot, share: Option<int>): Allocation
  {
    if !IsAdjustable(shot) then
      Allocation(shot.id, shot.current, shot.current, shot.current, shot.locked, shot.generated, None)
    else if share.None? then
      Allocation(shot.id, shot.current, None, None, false, false, None)
    else
      var clamped := Clamp(share.value, shot.supported);
      Allocation(shot.id, shot.current, share, Some(clamped.0), false, false, clamped.1)
  }

  function ShareOf(shares: map<string, int>, id: string): Option<int>
  {
    if id in shares then Some(shares[id]) else None
  }

  function MakeAllocations(shots: seq<Shot>, shares: map<string, int>): (r: seq<Allocation>)
  {
    seq(|shots|, i requires 0 <= i < |shots| => MakeAllocation(shots[i], ShareOf(shares, shots[i].id)))
  }

  lemma {:induction false} AdjustableAreValid(shots: seq<Shot>)
    requires FirstFault(shots).None?
    ensures forall i | 0 <= i < |Adjustable(shots)| :: Adjustable(shots)[i].weight > 0.0
  {
    if shots != [] {
      var n := |shots| - 1;
      assert forall i | 0 <= i < n :: ShotFault(shots[i]).None?;
      AdjustableAreValid(shots[..n]);
      assert ShotFault(shots[n]).None?;
    }
  }

  /** The shares of a plan, or why there is none. */
  function PlanShares(target: int, shots: seq<Shot>, strategy: Strategy, manual: map<string, int>)
    : Result<map<string, int>, PlanError>
  {
    if target <= 0 then Err(TargetNotPositive)
    else if !DistinctIds(shots) then Err(DuplicateId)
    else if FirstFault(shots).Some? then Err(FirstFault(shots).value)
    else if target < FixedTotal(shots) then Err(BelowFixed)
    else
      AdjustableAreValid(shots);
      var adjustable := Adjustable(shots);
      SharesFor(target - FixedTotal(shots), Ids(adjustable), Weights(adjustable, strategy), strategy, manual)
  }

  function BuildPlan(target: int, shots: seq<Shot>, strategy: Strategy, manual: map<string, int>)
    : Result<seq<Allocation>, PlanError>
  {
    match PlanShares(target, shots, strategy, manual)
    case Err(e) => Err(e)
    case Ok(shares) => Ok(MakeAllocations(shots, shares))
  }

  // ----- preview and application

  datatype Change = Change(id: string, from: Option<int>, to: int, reason: Option<Reason>)

  /** {shot.id: shot}; a later shot replaces an earlier one with the same id. */
  function ById(shots: seq<Shot>): map<string, Shot>
  {
    if shots == [] then map[] else ById(shots[..|shots| - 1])[shots[|shots| - 1].id := shots[|shots| - 1]]
  }

  /** The change one allocation asks for, if any. */
  function ChangeFor(shots: map<string, Shot>, a: Allocation): seq<Change>
  {
    if a.id !in shots || !IsAdjustable(shots[a.id]) || a.requested.None? then []
    else if shots[a.id].current == a.requested then []
    else [Change(shots[a.id].id, shots[a.id].current, a.requested.value, a.reason)]
  }

  function Changes(shots: map<string, Shot>, plan: seq<Allocation>): seq<Change>
  {
    if plan == [] then []
    else Changes(shots, plan[..|plan| - 1]) + ChangeFor(shots, plan[|plan| - 1])
  }

  method PreviewReplan(shots: seq<Shot>, plan: seq<Allocation>) returns (changes: seq<Change>)
    ensures changes == Changes(ById(shots), plan)
  {
    var currentById: map<string, Shot> := map[];
    for i := 0 to |shots|
      invariant currentById == ById(shots[..i])
    {
      assert shots[..i + 1][..i] == shots[..i];
      currentById := currentById[shots[i].id := shots[i]];
    }
    assert shots[..|shots|] == shots;
    changes := [];
    for i := 0 to |plan|
      invariant changes == Changes(ById(shots), plan[..i])
    {
      assert plan[..i + 1][..i] == plan[..i];
      var a := plan[i];
      if a.id !in currentById || !IsAdjustable(currentById[a.id]) || a.requested.None? {
        continue;
      }
      var shot := currentById[a.id];
      if shot.current != a.requested {
        changes := changes + [Change(shot.id, shot.current, a.requested.value, a.reason)];
      }
    }
    assert plan[..|plan|] == plan;
  }

  /** apply_confirmed_plan: {id: seconds} for the changes. */
  function Updates(changes: seq<Change>): map<string, int>
  {
    if changes == [] then map[]
    else Updates(changes[..|changes| - 1])[changes[|changes| - 1].id := changes[|changes| - 1].to]
  }

  /** What the caller persists. */
  function Applied(shots: seq<Shot>, updates: map<string, int>): (r: seq<Shot>)
  {
    seq(|shots|, i requires 0 <= i < |shots| =>
      if shots[i].id in updates then shots[i].(current := Some(updates[shots[i].id])) else shots[i])
  }

  // ----- adjustable shots, one more at a time

  lemma OneMoreShot(shots: seq<Shot>, s: Shot, strategy: Strategy)
    ensures Ids(shots + [s]) == Ids(shots) + [s.id]
    ensures Weights(shots + [s], strategy) == Weights(shots, strategy) + [if strategy == Equal then 1.0 else s.weight]
  {
  }

  lemma LastIsFixed(shots: seq<Shot>)
    requires shots != [] && !IsAdjustable(shots[|shots| - 1])
    ensures Adjustable(shots) == Adjustable(shots[..|shots| - 1])
  {
  }

  lemma LastIsAdjustable(shots: seq<Shot>, strategy: Strategy)
    requires shots != [] && IsAdjustable(shots[|shots| - 1])
    ensures var before, last := Adjustable(shots[..|shots| - 1]), shots[|shots| - 1];
            && Adjustable(shots) == before + [last]
            && Ids(Adjustable(shots)) == Ids(before) + [last.id]
            && Weights(Adjustable(shots), strategy) ==
               Weights(before, strategy) + [if strategy == Equal then 1.0 else last.weight]
  {
    OneMoreShot(Adjustable(shots[..|shots| - 1]), shots[|shots| - 1], strategy);
  }

  // ----- the plan adds up

  function ShareSeconds(plan: seq<Allocation>): int
  {
    if plan == [] then 0 else ShareSeconds(plan[..|plan| - 1]) + Seconds(plan[|plan| - 1].share)
  }

  function SumByIds(ids: seq<string>, shares: map<string, int>): int
  {
    if ids == [] then 0 else SumByIds(ids[..|ids| - 1], shares) + Seconds(ShareOf(shares, ids[|ids| - 1]))
  }

  lemma {:induction false} AllocationsAddUp(shots: seq<Shot>, shares: map<string, int>)
    ensures ShareSeconds(MakeAllocations(shots, shares)) == FixedTotal(shots) + SumByIds(Ids(Adjustable(shots)), shares)
  {
    if shots != [] {
      var n := |shots| - 1;
      var shot := shots[n];
      AllocationsAddUp(shots[..n], shares);
      assert MakeAllocations(shots, shares)[..n] == MakeAllocations(shots[..n], shares);
      if IsAdjustable(shot) {
        LastIsAdjustable(shots, Equal);
        assert Ids(Adjustable(shots))[..|Adjustable(shots[..n])|] == Ids(Adjustable(shots[..n]));
      } else {
        LastIsFixed(shots);
      }
    }
  }

  predicate Distinct(ids: seq<string>)
  {
    forall i, j | 0 <= i < j < |ids| :: ids[i] != ids[j]
  }

  lemma {:induction false} OtherIdsDoNotCount(ids: seq<string>, shares: map<string, int>, id: string, v: int)
    requires id !in ids
    ensures SumByIds(ids, shares[id := v]) == SumByIds(ids, shares)
  {
    if ids != [] {
      OtherIdsDoNotCount(ids[..|ids| - 1], shares, id, v);
    }
  }

  lemma {:induction false} ByIdsAddUp(ids: seq<string>, shares: seq<int>)
    requires Distinct(ids) && |ids| == |shares|
    ensures SumByIds(ids, ByIds(ids, shares)) == Sum(shares)
    ensures forall i | 0 <= i < |ids| :: ids[i] in ByIds(ids, shares)
  {
    if ids != [] {
      var n := |ids| - 1;
      ByIdsAddUp(ids[..n], shares[..n]);
      OtherIdsDoNotCount(ids[..n], ByIds(ids[..n], shares[..n]), ids[n], shares[n]);
      forall i | 0 <= i < n ensures ids[i] in ByIds(ids, shares) {
        assert ids[..n][i] in ByIds(ids[..n], shares[..n]);
      }
    }
  }

  lemma {:induction false} AdjustableIdsDistinct(shots: seq<Shot>)
    requires DistinctIds(shots)
    ensures Distinct(Ids(Adjustable(shots)))
    ensures forall id | id in Ids(Adjustable(shots)) :: exists k :: 0 <= k < |shots| && shots[k].id == id
  {
    if shots != [] {
      var n := |shots| - 1;
      AdjustableIdsDistinct(shots[..n]);
      forall id | id in Ids(Adjustable(shots[..n]))
        ensures id != shots[n].id && exists k :: 0 <= k < |shots| && shots[k].id == id
      {
        var k :| 0 <= k < n && shots[..n][k].id == id;
        assert shots[k].id == id;
      }
      if IsAdjustable(shots[n]) {
        LastIsAdjustable(shots, Equal);
        AppendDistinct(Ids(Adjustable(shots[..n])), shots[n].id);
        assert shots[n].id == shots[n].id;
      } else {
        LastIsFixed(shots);
      }
    }
  }

  lemma AppendDistinct(ids: seq<string>, id: string)
    requires Distinct(ids) && id !in ids
    ensures Distinct(ids + [id])
  {
  }

  /** With at least one adjustable shot and no shares by hand, the shares are those of the apportionment. */
  lemma SharesOfPlan(target: int, shots: seq<Shot>, strategy: Strategy, manual: map<string, int>)
    requires BuildPlan(target, shots, strategy, manual).Ok? && strategy != Manual && Adjustable(shots) != []
    ensures DistinctIds(shots) && AllPositive(Weights(Adjustable(shots), strategy))
    ensures PlanShares(target, shots, strategy, manual) ==
            Ok(ByIds(Ids(Adjustable(shots)), Shares(target - FixedTotal(shots), Weights(Adjustable(shots), strategy))))
  {
    PlanIsOfValidShots(target, shots, strategy, manual);
    assert Ids(Adjustable(shots)) != [];
  }

  /**
   With at least one adjustable shot, equal and proportional shares and the fixed durations make exactly the target.
   */
  lemma PlanMeetsTarget(target: int, shots: seq<Shot>, strategy: Strategy, manual: map<string, int>)
    requires BuildPlan(target, shots, strategy, manual).Ok? && strategy != Manual && Adjustable(shots) != []
    ensures ShareSeconds(BuildPlan(target, shots, strategy, manual).value) == target
  {
    SharesOfPlan(target, shots, strategy, manual);
    ApportionmentAddsUp(target - FixedTotal(shots), shots, strategy);
    AllocationsAddUp(shots, PlanShares(target, shots, strategy, manual).value);
  }

  lemma ApportionmentAddsUp(remaining: int, shots: seq<Shot>, strategy: Strategy)
    requires DistinctIds(shots) && Adjustable(shots) != [] && AllPositive(Weights(Adjustable(shots), strategy))
    ensures var ids := Ids(Adjustable(shots));
            SumByIds(ids, ByIds(ids, Shares(remaining, Weights(Adjustable(shots), strategy)))) == remaining
  {
    AdjustableIdsDistinct(shots);
    SharesAddUp(remaining, Weights(Adjustable(shots), strategy));
    ByIdsAddUp(Ids(Adjustable(shots)), Shares(remaining, Weights(Adjustable(shots), strategy)));
  }

  lemma PlanIsOfValidShots(target: int, shots: seq<Shot>, strategy: Strategy, manual: map<string, int>)
    requires PlanShares(target, shots, strategy, manual).Ok?
    ensures DistinctIds(shots) && FirstFault(shots).None? && AllPositive(Weights(Adjustable(shots), strategy))
  {
    AdjustableAreValid(shots);
  }

  // ----- which shot gets which share

  /** There is a plan exactly for valid shots with room for the fixed ones and, if asked for, a share for each other. */
  lemma PlanExistsIff(target: int, shots: seq<Shot>, strategy: Strategy, manual: map<string, int>)
    ensures BuildPlan(target, shots, strategy, manual).Ok? <==>
            && target > 0 && DistinctIds(shots) && (forall i | 0 <= i < |shots| :: ShotFault(shots[i]).None?)
            && FixedTotal(shots) <= target
            && (strategy == Manual ==>
                  forall i | 0 <= i < |shots| && IsAdjustable(shots[i]) :: IsGiven(manual, shots[i].id))
  {
    if FirstFault(shots).None? {
      AdjustableAreValid(shots);
      var adjustable := Adjustable(shots);
      SharesForIff(target - FixedTotal(shots), Ids(adjustable), Weights(adjustable, strategy), strategy, manual);
      GivenIff(shots, manual);
    }
  }

  lemma SharesForIff(
    remaining: int, ids: seq<string>, weights: seq<real>, strategy: Strategy, manual: map<string, int>)
    requires |ids| == |weights| && AllPositive(weights)
    ensures SharesFor(remaining, ids, weights, strategy, manual).Ok? <==>
            (strategy == Manual ==> forall id | id in ids :: IsGiven(manual, id))
  {
  }

  lemma GivenIff(shots: seq<Shot>, manual: map<string, int>)
    ensures (forall id | id in Ids(Adjustable(shots)) :: IsGiven(manual, id)) <==>
            forall i | 0 <= i < |shots| && IsAdjustable(shots[i]) :: IsGiven(manual, shots[i].id)
  {
    AdjustableIdsAre(shots);
  }

  /** What each reason for not planning says about the request. */
  ghost predicate IsTrueError(target: int, shots: seq<Shot>, manual: map<string, int>, error: PlanError)
  {
    match error
    case TargetNotPositive => target <= 0
    case DuplicateId => !DistinctIds(shots)
    case BelowFixed => target < FixedTotal(shots)
    case ManualMissing => exists i :: 0 <= i < |shots| && IsAdjustable(shots[i]) && shots[i].id !in manual
    case ManualNotPositive =>
      exists i :: 0 <= i < |shots| && IsAdjustable(shots[i]) && shots[i].id in manual && manual[shots[i].id] <= 0
    case fault =>
      exists i :: 0 <= i < |shots| && ShotFault(shots[i]) == Some(fault)
                  && forall j | 0 <= j < i :: ShotFault(shots[j]).None?
  }

  /** The reason given when there is no plan is true; a shot's fault is the first in the order of the shots. */
  lemma PlanErrorIsTrue(target: int, shots: seq<Shot>, strategy: Strategy, manual: map<string, int>)
    requires BuildPlan(target, shots, strategy, manual).Err?
    ensures IsTrueError(target, shots, manual, BuildPlan(target, shots, strategy, manual).error)
  {
    if FirstFault(shots).Some? {
      FaultIsTrue(target, shots, manual);
    } else {
      AdjustableAreValid(shots);
      SharesErrorIsTrue(target - FixedTotal(shots), target, shots, strategy, manual);
    }
  }

  lemma FaultIsTrue(target: int, shots: seq<Shot>, manual: map<string, int>)
    requires FirstFault(shots).Some?
    ensures IsTrueError(target, shots, manual, FirstFault(shots).value)
  {
    FaultIsFirst(shots);
    var i :| 0 <= i < |shots| && ShotFault(shots[i]) == FirstFault(shots)
             && forall j | 0 <= j < i :: ShotFault(shots[j]).None?;
  }

  lemma SharesErrorIsTrue(
    remaining: int, target: int, shots: seq<Shot>, strategy: Strategy, manual: map<string, int>)
    requires AllPositive(Weights(Adjustable(shots), strategy))
    ensures var r :=
              SharesFor(remaining, Ids(Adjustable(shots)), Weights(Adjustable(shots), strategy), strategy, manual);
            r.Err? ==> IsTrueError(target, shots, manual, r.error)
  {
    AdjustableIdsAre(shots);
  }

  predicate IsGiven(manual: map<string, int>, id: string)
  {
    id in manual && manual[id] > 0
  }

  lemma AdjustableIdsAre(shots: seq<Shot>)
    ensures forall id :: id in Ids(Adjustable(shots)) <==>
              exists i :: 0 <= i < |shots| && IsAdjustable(shots[i]) && shots[i].id == id
  {
    forall id | id in Ids(Adjustable(shots))
      ensures exists i :: 0 <= i < |shots| && IsAdjustable(shots[i]) && shots[i].id == id
    {
      var at :| 0 <= at < |Adjustable(shots)| && Adjustable(shots)[at].id == id;
      var i := AdjustableFrom(shots, at);
    }
    forall i | 0 <= i < |shots| && IsAdjustable(shots[i]) ensures shots[i].id in Ids(Adjustable(shots)) {
      AdjustableIsListed(shots, i);
    }
  }

  lemma {:induction false} AdjustableFrom(shots: seq<Shot>, at: nat) returns (i: nat)
    requires at < |Adjustable(shots)|
    ensures i < |shots| && IsAdjustable(shots[i]) && shots[i] == Adjustable(shots)[at]
  {
    var n := |shots| - 1;
    if at < |Adjustable(shots[..n])| {
      i := AdjustableFrom(shots[..n], at);
    } else {
      i := n;
    }
  }

  /** The fault reported is the first in the order of the shots. */
  lemma {:induction false} FaultIsFirst(shots: seq<Shot>)
    ensures FirstFault(shots).Some? ==>
              exists i :: 0 <= i < |shots| && ShotFault(shots[i]) == FirstFault(shots)
                          && forall j | 0 <= j < i :: ShotFault(shots[j]).None?
  {
    if shots != [] {
      var n := |shots| - 1;
      FaultIsFirst(shots[..n]);
      assert forall j | 0 <= j < n :: shots[..n][j] == shots[j];
      if FirstFault(shots[..n]).Some? {
        var i :| 0 <= i < n && ShotFault(shots[..n][i]) == FirstFault(shots[..n])
                 && forall j | 0 <= j < i :: ShotFault(shots[..n][j]).None?;
        assert ShotFault(shots[i]) == FirstFault(shots);
      }
    }
  }

  /** How many adjustable shots come before the k-th shot. */
  function PosOf(shots: seq<Shot>, k: nat): nat
    requires k <= |shots|
  {
    |Adjustable(shots[..k])|
  }

  lemma {:induction false} AdjustableAt(shots: seq<Shot>, k: nat)
    requires k < |shots| && IsAdjustable(shots[k])
    ensures PosOf(shots, k) < |Adjustable(shots)| && Adjustable(shots)[PosOf(shots, k)] == shots[k]
  {
    var n := |shots| - 1;
    if k < n {
      AdjustableAt(shots[..n], k);
      assert shots[..n][..k] == shots[..k];
    }
  }

  lemma {:induction false} PosGrows(shots: seq<Shot>, k: nat, j: nat)
    requires k < j <= |shots| && IsAdjustable(shots[k])
    ensures PosOf(shots, k) < PosOf(shots, j)
  {
    assert shots[..j][..j - 1] == shots[..j - 1];
    if k < j - 1 {
      PosGrows(shots, k, j - 1);
    }
  }

  function WeightFor(shot: Shot, strategy: Strategy): real
  {
    if strategy == Equal then 1.0 else shot.weight
  }

  /** The weight of all adjustable shots. */
  function TotalWeight(shots: seq<Shot>, strategy: Strategy): real
  {
    if shots == [] then 0.0
    else TotalWeight(shots[..|shots| - 1], strategy)
         + (if IsAdjustable(shots[|shots| - 1]) then WeightFor(shots[|shots| - 1], strategy) else 0.0)
  }

  lemma {:induction false} TotalIsSum(shots: seq<Shot>, strategy: Strategy)
    ensures SumR(Weights(Adjustable(shots), strategy)) == TotalWeight(shots, strategy)
  {
    if shots != [] {
      var n := |shots| - 1;
      TotalIsSum(shots[..n], strategy);
      if IsAdjustable(shots[n]) {
        LastIsAdjustable(shots, strategy);
        var before := Weights(Adjustable(shots[..n]), strategy);
        assert (before + [WeightFor(shots[n], strategy)])[..|before|] == before;
      } else {
        LastIsFixed(shots);
      }
    }
  }

  lemma {:induction false} ByIdsAt(ids: seq<string>, shares: seq<int>, i: nat)
    requires Distinct(ids) && |ids| == |shares| && i < |ids|
    ensures ShareOf(ByIds(ids, shares), ids[i]) == Some(shares[i])
  {
    var n := |ids| - 1;
    if i < n {
      ByIdsAt(ids[..n], shares[..n], i);
    }
  }

  /** The exact quota of one shot: its weight's part of the seconds the fixed shots leave. */
  function QuotaOf(target: int, shots: seq<Shot>, strategy: Strategy, shot: Shot): real
    requires TotalWeight(shots, strategy) > 0.0
  {
    Quota(target - FixedTotal(shots), WeightFor(shot, strategy), TotalWeight(shots, strategy))
  }

  /** The quota and the share at this place of the apportionment. */
  ghost predicate IsSharedAt(remaining: int, weights: seq<real>, at: nat, quota: real, share: Option<int>)
  {
    && AllPositive(weights) && at < |weights|
    && share == Some(Shares(remaining, weights)[at]) && quota == Quotas(remaining, weights)[at]
  }

  /** An adjustable shot's share is what the apportionment gives its place among the adjustable ones. */
  lemma SharedAt(target: int, shots: seq<Shot>, strategy: Strategy, manual: map<string, int>, k: nat)
    requires BuildPlan(target, shots, strategy, manual).Ok? && strategy != Manual
    requires k < |shots| && IsAdjustable(shots[k])
    ensures TotalWeight(shots, strategy) > 0.0
    ensures IsSharedAt(target - FixedTotal(shots), Weights(Adjustable(shots), strategy), PosOf(shots, k),
                       QuotaOf(target, shots, strategy, shots[k]),
                       BuildPlan(target, shots, strategy, manual).value[k].share)
  {
    var at := PosOf(shots, k);
    PlanIsOfValidShots(target, shots, strategy, manual);
    AdjustableAt(shots, k);
    TotalIsSum(shots, strategy);
    SumIsPositive(Weights(Adjustable(shots), strategy));
    AdjustableIdsDistinct(shots);
    ByIdsAt(Ids(Adjustable(shots)), Shares(target - FixedTotal(shots), Weights(Adjustable(shots), strategy)), at);
    SharesOfPlan(target, shots, strategy, manual);
  }

  /**
   Equal or by weight, every adjustable shot gets the whole seconds of its quota or one more, and the one more goes to
   larger remainders first and to earlier shots among equals.
   */
  lemma PlanIsFair(target: int, shots: seq<Shot>, strategy: Strategy, manual: map<string, int>, k: nat, j: nat)
    requires BuildPlan(target, shots, strategy, manual).Ok? && strategy != Manual
    requires k < |shots| && IsAdjustable(shots[k]) && j < |shots| && IsAdjustable(shots[j])
    ensures TotalWeight(shots, strategy) > 0.0
    ensures |BuildPlan(target, shots, strategy, manual).value| == |shots|
    ensures var plan := BuildPlan(target, shots, strategy, manual).value;
            AreFairShares(QuotaOf(target, shots, strategy, shots[k]), QuotaOf(target, shots, strategy, shots[j]),
                          plan[k].share, plan[j].share, k, j)
  {
    SharedAt(target, shots, strategy, manual, k);
    SharedAt(target, shots, strategy, manual, j);
    var plan := BuildPlan(target, shots, strategy, manual).value;
    assert k < |plan| && j < |plan|;
    FairAt(target - FixedTotal(shots), Weights(Adjustable(shots), strategy), PosOf(shots, k), PosOf(shots, j),
           QuotaOf(target, shots, strategy, shots[k]), QuotaOf(target, shots, strategy, shots[j]),
           plan[k].share, plan[j].share);
    PosFollows(shots, k, j);
  }

  /** Of two quotas: whole seconds or one more, and the one more by remainder, or by place among equals. */
  predicate AreFairShares(
    mine: real, other: real, myShare: Option<int>, otherShare: Option<int>, myPlace: nat, otherPlace: nat)
  {
    && (myShare == Some(mine.Floor) || myShare == Some(mine.Floor + 1))
    && (myShare == Some(mine.Floor + 1) && otherShare == Some(other.Floor) ==>
          || Remainder(mine) > Remainder(other)
          || (Remainder(mine) == Remainder(other) && myPlace < otherPlace))
  }

  lemma FairAt(
    remaining: int, weights: seq<real>, a: nat, b: nat, mine: real, other: real, myShare: Option<int>,
    otherShare: Option<int>)
    requires IsSharedAt(remaining, weights, a, mine, myShare) && IsSharedAt(remaining, weights, b, other, otherShare)
    ensures AreFairShares(mine, other, myShare, otherShare, a, b)
  {
    SharesAreFair(remaining, weights, a, b);
  }

  lemma PosFollows(shots: seq<Shot>, k: nat, j: nat)
    requires k < |shots| && j < |shots| && IsAdjustable(shots[k]) && IsAdjustable(shots[j])
    ensures PosOf(shots, k) < PosOf(shots, j) ==> k < j
  {
    if j < k {
      PosGrows(shots, j, k);
    }
  }

  /** In a plan by hand every adjustable shot gets exactly what it was given. */
  lemma ManualPlan(target: int, shots: seq<Shot>, manual: map<string, int>, k: nat)
    requires BuildPlan(target, shots, Manual, manual).Ok? && k < |shots| && IsAdjustable(shots[k])
    ensures shots[k].id in manual && |BuildPlan(target, shots, Manual, manual).value| == |shots|
    ensures BuildPlan(target, shots, Manual, manual).value[k].share == Some(manual[shots[k].id])
  {
    PlanIsOfValidShots(target, shots, Manual, manual);
    AdjustableIsListed(shots, k);
  }

  // ----- the preview in order

  /** The allocation asks an adjustable shot for another duration than it has. */
  predicate IsDue(shots: map<string, Shot>, a: Allocation)
  {
    a.id in shots && IsAdjustable(shots[a.id]) && a.requested.Some? && a.requested != shots[a.id].current
  }

  /** The changes are those of the allocations at these places, which are all that are due. */
  ghost predicate IsPreview(shots: map<string, Shot>, plan: seq<Allocation>, changes: seq<Change>, at: seq<nat>)
  {
    && |at| == |changes|
    && (forall i | 0 <= i < |at| :: at[i] < |plan| && IsDue(shots, plan[at[i]])
          && changes[i] == Change(shots[plan[at[i]].id].id, shots[plan[at[i]].id].current,
                                  plan[at[i]].requested.value, plan[at[i]].reason))
    && (forall i, j | 0 <= i < j < |at| :: at[i] < at[j])
    && forall k: nat | k < |plan| && IsDue(shots, plan[k]) :: k in at
  }

  /** A preview lists every change that is due, once, in the order of the plan. */
  lemma {:induction false} ChangesInOrder(shots: map<string, Shot>, plan: seq<Allocation>) returns (at: seq<nat>)
    ensures IsPreview(shots, plan, Changes(shots, plan), at)
  {
    if plan == [] {
      at := [];
    } else {
      var n: nat := |plan| - 1;
      var before := ChangesInOrder(shots, plan[..n]);
      if IsDue(shots, plan[n]) {
        OneMoreDue(shots, plan, Changes(shots, plan[..n]), before);
        at := before + [n];
      } else {
        NoneMoreDue(shots, plan, Changes(shots, plan[..n]), before);
        at := before;
      }
    }
  }

  lemma OneMoreDue(shots: map<string, Shot>, plan: seq<Allocation>, changes: seq<Change>, at: seq<nat>)
    requires plan != [] && IsPreview(shots, plan[..|plan| - 1], changes, at) && IsDue(shots, plan[|plan| - 1])
    ensures IsPreview(shots, plan, changes + ChangeFor(shots, plan[|plan| - 1]), at + [|plan| - 1])
  {
    var n: nat, longer := |plan| - 1, at + [|plan| - 1];
    assert longer[|at|] == n;
    forall k: nat | k < |plan| && IsDue(shots, plan[k]) ensures k in longer {
      if k < n {
        assert plan[..n][k] == plan[k];
      }
    }
  }

  lemma NoneMoreDue(shots: map<string, Shot>, plan: seq<Allocation>, changes: seq<Change>, at: seq<nat>)
    requires plan != [] && IsPreview(shots, plan[..|plan| - 1], changes, at) && !IsDue(shots, plan[|plan| - 1])
    ensures IsPreview(shots, plan, changes + ChangeFor(shots, plan[|plan| - 1]), at)
  {
    var n: nat := |plan| - 1;
    assert changes + [] == changes;
    forall k: nat | k < |plan| && IsDue(shots, plan[k]) ensures k in at {
      assert plan[..n][k] == plan[k];
    }
  }

  // ----- applying settles

  /** A shot with the same identity, limits and flags, whatever its current duration. */
  predicate IsSameShot(a: Shot, b: Shot)
  {
    a == b.(current := a.current) && (!IsAdjustable(b) ==> a == b)
  }

  ghost predicate AreSameShots(a: seq<Shot>, b: seq<Shot>)
  {
    |a| == |b| && forall i | 0 <= i < |a| :: IsSameShot(a[i], b[i])
  }

  lemma {:induction false} SameShotsSamePlan(a: seq<Shot>, b: seq<Shot>, strategy: Strategy)
    requires AreSameShots(a, b)
    ensures FixedTotal(a) == FixedTotal(b)
    ensures Ids(Adjustable(a)) == Ids(Adjustable(b))
            && Weights(Adjustable(a), strategy) == Weights(Adjustable(b), strategy)
  {
    if a != [] {
      var n := |a| - 1;
      assert IsSameShot(a[n], b[n]);
      assert AreSameShots(a[..n], b[..n]);
      SameShotsSamePlan(a[..n], b[..n], strategy);
      if IsAdjustable(a[n]) {
        LastIsAdjustable(a, strategy);
        LastIsAdjustable(b, strategy);
      } else {
        LastIsFixed(a);
        LastIsFixed(b);
      }
    }
  }

  lemma {:induction false} ByIdFinds(shots: seq<Shot>, k: nat)
    requires DistinctIds(shots) && k < |shots|
    ensures shots[k].id in ById(shots) && ById(shots)[shots[k].id] == shots[k]
  {
    if k < |shots| - 1 {
      ByIdFinds(shots[..|shots| - 1], k);
    }
  }

  lemma MembersHaveShares(
    remaining: int, ids: seq<string>, weights: seq<real>, strategy: Strategy, manual: map<string, int>)
    requires |ids| == |weights| && AllPositive(weights) && Distinct(ids)
    requires SharesFor(remaining, ids, weights, strategy, manual).Ok?
    ensures forall i | 0 <= i < |ids| :: ids[i] in SharesFor(remaining, ids, weights, strategy, manual).value
  {
    if strategy != Manual {
      ByIdsAddUp(ids, Shares(remaining, weights));
    }
  }

  lemma {:induction false} AdjustableIsListed(shots: seq<Shot>, k: nat)
    requires k < |shots| && IsAdjustable(shots[k])
    ensures shots[k].id in Ids(Adjustable(shots))
  {
    var n := |shots| - 1;
    if IsAdjustable(shots[n]) {
      LastIsAdjustable(shots, Equal);
    } else {
      LastIsFixed(shots);
    }
    if k < n {
      AdjustableIsListed(shots[..n], k);
    } else {
      assert Ids(Adjustable(shots))[|Ids(Adjustable(shots))| - 1] == shots[n].id;
    }
  }

  lemma SharedShot(target: int, shots: seq<Shot>, strategy: Strategy, manual: map<string, int>, k: nat)
    requires PlanShares(target, shots, strategy, manual).Ok? && k < |shots| && IsAdjustable(shots[k])
    ensures shots[k].id in PlanShares(target, shots, strategy, manual).value
  {
    AdjustableAreValid(shots);
    AdjustableIdsDistinct(shots);
    var adjustable := Adjustable(shots);
    MembersHaveShares(target - FixedTotal(shots), Ids(adjustable), Weights(adjustable, strategy), strategy, manual);
    AdjustableIsListed(shots, k);
  }

  /**
   In a finished plan every adjustable shot has a share and asks for the supported duration nearest to it, the smaller
   of two that are equally near; a reason is given exactly when the share itself is not supported.
   */
  lemma PlannedShot(target: int, shots: seq<Shot>, strategy: Strategy, manual: map<string, int>, k: nat)
    requires BuildPlan(target, shots, strategy, manual).Ok? && k < |shots|
    ensures var plan := BuildPlan(target, shots, strategy, manual).value;
            && |plan| == |shots| && plan[k].id == shots[k].id && ShotFault(shots[k]).None?
            && (IsAdjustable(shots[k]) ==>
                  && shots[k].supported != [] && plan[k].share.Some?
                  && plan[k].requested == Some(Nearest(plan[k].share.value, shots[k].supported))
                  && (plan[k].reason.None? <==> plan[k].share.value in shots[k].supported))
            && (!IsAdjustable(shots[k]) ==> plan[k].requested == shots[k].current)
  {
    PlanIsOfValidShots(target, shots, strategy, manual);
    var shares := PlanShares(target, shots, strategy, manual).value;
    assert ShotFault(shots[k]).None?;
    if IsAdjustable(shots[k]) {
      SharedShot(target, shots, strategy, manual, k);
      ClampIsNearest(shares[shots[k].id], shots[k].supported);
    }
  }

  lemma {:induction false} UpdatesOf(shots: seq<Shot>, plan: seq<Allocation>, n: nat, k: nat)
    requires DistinctIds(shots) && |plan| == |shots| && n <= |shots| && k < |shots|
    requires forall i | 0 <= i < |shots| :: plan[i].id == shots[i].id
    ensures var updates := Updates(Changes(ById(shots), plan[..n]));
            shots[k].id in updates <==> k < n && ChangeFor(ById(shots), plan[k]) != []
    ensures var updates := Updates(Changes(ById(shots), plan[..n]));
            shots[k].id in updates ==> Some(updates[shots[k].id]) == plan[k].requested
  {
    if n > 0 {
      UpdatesOf(shots, plan, n - 1, k);
      UpdatesUpTo(shots, plan, n);
      assert k != n - 1 ==> shots[k].id != shots[n - 1].id;
    }
  }

  lemma {:induction false} UpdatesUpTo(shots: seq<Shot>, plan: seq<Allocation>, n: nat)
    requires DistinctIds(shots) && |plan| == |shots| && 0 < n <= |shots| && plan[n - 1].id == shots[n - 1].id
    ensures ChangeFor(ById(shots), plan[n - 1]) != [] ==> plan[n - 1].requested.Some?
    ensures var before := Updates(Changes(ById(shots), plan[..n - 1]));
            Updates(Changes(ById(shots), plan[..n])) ==
            if ChangeFor(ById(shots), plan[n - 1]) == [] then before
            else before[shots[n - 1].id := plan[n - 1].requested.value]
  {
    assert plan[..n][..n - 1] == plan[..n - 1];
    UpdatesMore(shots, plan, n - 1);
  }

  /** One allocation adds at most an update for its own shot. */
  lemma {:induction false} UpdatesMore(shots: seq<Shot>, plan: seq<Allocation>, at: nat)
    requires DistinctIds(shots) && |plan| == |shots| && at < |shots| && plan[at].id == shots[at].id
    ensures var before, more := Changes(ById(shots), plan[..at]), ChangeFor(ById(shots), plan[at]);
            && (more == [] ==> Updates(before + more) == Updates(before))
            && (more != [] ==>
                  plan[at].requested.Some?
                  && Updates(before + more) == Updates(before)[shots[at].id := plan[at].requested.value])
  {
    ByIdFinds(shots, at);
    var before, more := Changes(ById(shots), plan[..at]), ChangeFor(ById(shots), plan[at]);
    if more == [] {
      assert before + more == before;
    } else {
      assert (before + more)[..|before|] == before;
    }
  }

  /** After applying, every adjustable shot has the duration the plan asked for, and nothing else has changed. */
  lemma AppliedShot(target: int, shots: seq<Shot>, strategy: Strategy, manual: map<string, int>, k: nat)
    requires BuildPlan(target, shots, strategy, manual).Ok? && k < |shots|
    ensures var plan := BuildPlan(target, shots, strategy, manual).value;
            var after := Applied(shots, Updates(Changes(ById(shots), plan)));
            && IsSameShot(after[k], shots[k])
            && (IsAdjustable(shots[k]) ==> |plan| == |shots| && after[k].current == plan[k].requested)
            && ShotFault(after[k]).None?
  {
    var plan := BuildPlan(target, shots, strategy, manual).value;
    forall i | 0 <= i < |shots| ensures |plan| == |shots| && plan[i].id == shots[i].id {
      PlannedShot(target, shots, strategy, manual, i);
    }
    PlanIsOfValidShots(target, shots, strategy, manual);
    assert plan[..|plan|] == plan;
    UpdatesOf(shots, plan, |plan|, k);
    ByIdFinds(shots, k);
    PlannedShot(target, shots, strategy, manual, k);
    UpdatedShot(shots[k], Updates(Changes(ById(shots), plan)), plan[k]);
  }

  lemma UpdatedShot(shot: Shot, updates: map<string, int>, a: Allocation)
    requires ShotFault(shot).None?
    requires IsAdjustable(shot) ==> a.requested.Some? && a.requested.value in shot.supported
    requires shot.id in updates ==> IsAdjustable(shot) && Some(updates[shot.id]) == a.requested
    requires shot.id !in updates && IsAdjustable(shot) ==> shot.current == a.requested
    ensures var after := if shot.id in updates then shot.(current := Some(updates[shot.id])) else shot;
            IsSameShot(after, shot) && ShotFault(after).None? && (IsAdjustable(shot) ==> after.current == a.requested)
  {
  }

  /** Applying a confirmed plan, planning again with the same settings and previewing finds nothing left to change. */
  lemma ReplanningIsIdle(target: int, shots: seq<Shot>, strategy: Strategy, manual: map<string, int>)
    requires BuildPlan(target, shots, strategy, manual).Ok?
    ensures var plan := BuildPlan(target, shots, strategy, manual).value;
            var after := Applied(shots, Updates(Changes(ById(shots), plan)));
            var again := BuildPlan(target, after, strategy, manual);
            && again.Ok? && |again.value| == |plan|
            && (forall k | 0 <= k < |plan| ::
                again.value[k].share == plan[k].share && again.value[k].requested == plan[k].requested)
            && Changes(ById(after), again.value) == []
  {
    var plan := BuildPlan(target, shots, strategy, manual).value;
    var after := Applied(shots, Updates(Changes(ById(shots), plan)));
    forall k | 0 <= k < |shots|
      ensures IsSameShot(after[k], shots[k]) && ShotFault(after[k]).None?
      ensures IsAdjustable(shots[k]) ==> |plan| == |shots| && after[k].current == plan[k].requested
    {
      AppliedShot(target, shots, strategy, manual, k);
    }
    AdjustableAreValid(shots);
    AdjustableAreValid(after);
    SameShotsSamePlan(after, shots, strategy);
    var again := BuildPlan(target, after, strategy, manual);
    SameAllocations(target, shots, after, strategy, manual);
    NothingToChange(after, again.value);
  }

  lemma SameAllocations(target: int, shots: seq<Shot>, after: seq<Shot>, strategy: Strategy, manual: map<string, int>)
    requires BuildPlan(target, shots, strategy, manual).Ok? && AreSameShots(after, shots)
    requires FirstFault(after).None?
    ensures BuildPlan(target, after, strategy, manual).Ok?
    ensures var plan, again :=
            BuildPlan(target, shots, strategy, manual).value, BuildPlan(target, after, strategy, manual).value;
            |plan| == |again| == |shots|
            && forall k | 0 <= k < |shots| :: again[k].id == plan[k].id == after[k].id
                                              && again[k].share == plan[k].share
                                              && again[k].requested == plan[k].requested
  {
    SameShotsSamePlan(after, shots, strategy);
    AdjustableAreValid(shots);
    AdjustableAreValid(after);
    forall i, j | 0 <= i < j < |after| ensures after[i].id != after[j].id {
      assert IsSameShot(after[i], shots[i]) && IsSameShot(after[j], shots[j]);
    }
    forall k | 0 <= k < |shots|
      ensures after[k].id == shots[k].id && after[k].supported == shots[k].supported
      ensures IsAdjustable(after[k]) == IsAdjustable(shots[k]) && (!IsAdjustable(shots[k]) ==> after[k] == shots[k])
    {
      assert IsSameShot(after[k], shots[k]);
    }
  }

  lemma {:induction false} NothingToChange(shots: seq<Shot>, plan: seq<Allocation>)
    requires DistinctIds(shots) && |plan| <= |shots|
    requires forall k | 0 <= k < |plan| :: plan[k].id == shots[k].id
    requires forall k | 0 <= k < |plan| && IsAdjustable(shots[k]) :: plan[k].requested == shots[k].current
    ensures Changes(ById(shots), plan) == []
  {
    if plan != [] {
      var n := |plan| - 1;
      NothingToChange(shots, plan[..n]);
      ByIdFinds(shots, n);
    }
  }

  /** A preview never touches a locked or generated shot. */
  lemma {:induction false} FixedShotsNeverChange(shots: map<string, Shot>, plan: seq<Allocation>, c: Change)
    requires forall id | id in shots :: shots[id].id == id
    requires c in Changes(shots, plan)
    ensures c.id in shots && IsAdjustable(shots[c.id]) && c.from == shots[c.id].current && Some(c.to) != c.from
    ensures exists k :: 0 <= k < |plan| && plan[k].id == c.id && plan[k].requested == Some(c.to)
  {
    var n := |plan| - 1;
    if c in Changes(shots, plan[..n]) {
      FixedShotsNeverChange(shots, plan[..n], c);
      var k :| 0 <= k < n && plan[..n][k].id == c.id && plan[..n][k].requested == Some(c.to);
      assert plan[k].id == c.id;
    } else {
      assert c in ChangeFor(shots, plan[n]);
      assert plan[n].id == c.id;
    }
  }
}
