/** Splitting a frame's rewards by participation, with floor division, and rebating what is left over. */
module Rewards {
  import opened Wrappers
  import opened Arithmetic
  import opened SetSums

  type OperatorId = nat
  type ValidatorIndex = nat

  /** What each validator of each operator takes part with. */
  type Participation = map<OperatorId, map<ValidatorIndex, nat>>

  datatype DistributionError =
    | NoValueForKey | BadPerformance | BadReward | NegativeRewards

  ghost function ValueIn<K(!new)>(m: map<K, int>): K -> int {
    (k: K) => if k in m then m[k] else 0
  }

  ghost function MapSum<K(!new)>(m: map<K, int>): int {
    SetSum(m.Keys, ValueIn(m))
  }

  lemma {:induction false} MapSumPut<K(!new)>(m: map<K, int>, k: K, x: int)
    requires k !in m
    ensures MapSum(m[k := x]) == MapSum(m) + x
  {
    SetSumAgrees(m.Keys, ValueIn(m), ValueIn(m[k := x]));
    PutOn(m.Keys, k, ValueIn(m[k := x]));
    assert m[k := x].Keys == m.Keys + {k};
  }

  lemma {:induction false} MapSumChange<K(!new)>(m: map<K, int>, k: K, x: int)
    requires k in m
    ensures MapSum(m[k := x]) == MapSum(m) - m[k] + x
  {
    TakeOff(m.Keys, k, ValueIn(m));
    TakeOff(m.Keys, k, ValueIn(m[k := x]));
    SetSumAgrees(m.Keys - {k}, ValueIn(m), ValueIn(m[k := x]));
    assert m[k := x].Keys == m.Keys;
  }

  lemma {:induction false} MapSumEmpty<K(!new)>()
    ensures MapSum<K>(map[]) == 0
  {
  }

  lemma {:induction false} MapSumPositive<K(!new)>(m: map<K, int>)
    requires forall k :: k in m ==> m[k] >= 0
    ensures MapSum(m) >= 0
    ensures (exists k :: k in m && m[k] > 0) ==> MapSum(m) > 0
  {
    SetSumMonotone(m.Keys, k => 0, ValueIn(m));
    SetSumWider({}, m.Keys, k => 0);
    if k :| k in m && m[k] > 0 {
      TakeOff(m.Keys, k, ValueIn(m));
      SetSumMonotone(m.Keys - {k}, k => 0, ValueIn(m));
      SetSumWider({}, m.Keys - {k}, k => 0);
    }
  }

  method SumValues<K(!new, ==)>(m: map<K, int>) returns (sum: int)
    ensures sum == MapSum(m)
  {
    sum := 0;
    var keys := m.Keys;
    while keys != {}
      invariant keys <= m.Keys
      invariant sum + SetSum(keys, ValueIn(m)) == MapSum(m)
      decreases |keys|
    {
      var k :| k in keys;
      TakeOff(keys, k, ValueIn(m));
      sum := sum + m[k];
      keys := keys - {k};
    }
  }

  /** The shares of the operators that are paid: those with any participation. */
  ghost function PaidOf(shares: Participation): map<OperatorId, int> {
    map op | op in shares && MapSum(shares[op]) != 0 :: MapSum(shares[op])
  }

  ghost function TotalShares(shares: Participation, rebateShare: nat): int {
    rebateShare + MapSum(PaidOf(shares))
  }

  /** Every paid operator gets its proportional part, rounded down. */
  ghost predicate IsDistribution(shares: Participation, rebateShare: nat, rewards: nat, d: map<OperatorId, int>) {
    && (forall op :: op in d <==> op in PaidOf(shares))
    && forall op :: op in d ==> IsPortion(rewards, PaidOf(shares)[op], TotalShares(shares, rebateShare), d[op])
  }

  function Portion(rewards: nat, share: int, total: int): int
    requires total > 0
  {
    rewards * share / total
  }

  ghost predicate IsPortion(rewards: nat, share: int, total: int, portion: int) {
    total > 0 && portion == Portion(rewards, share, total)
  }

  lemma {:induction false} PaidArePositive(shares: Participation)
    ensures forall op :: op in PaidOf(shares) ==> PaidOf(shares)[op] > 0
    ensures MapSum(PaidOf(shares)) >= 0
    ensures PaidOf(shares) != map[] ==> MapSum(PaidOf(shares)) > 0
  {
    forall op | op in PaidOf(shares) ensures PaidOf(shares)[op] > 0 {
      MapSumPositive(shares[op]);
    }
    MapSumPositive(PaidOf(shares));
    if PaidOf(shares) != map[] {
      var op :| op in PaidOf(shares);
    }
  }

  // ----- One frame -----

  method PaidShares(shares: Participation) returns (paid: map<OperatorId, int>, participationSum: int)
    ensures paid == PaidOf(shares)
    ensures participationSum == MapSum(paid)
  {
    hide MapSum;
    paid, participationSum := map[], 0;
    MapSumEmpty<OperatorId>();
    var operators := shares.Keys;
    while operators != {}
      invariant operators <= shares.Keys
      invariant forall op :: op in paid <==> (op in shares && op !in operators && MapSum(shares[op]) != 0)
      invariant forall op :: op in paid ==> paid[op] == MapSum(shares[op])
      invariant participationSum == MapSum(paid)
      decreases |operators|
    {
      var op :| op in operators;
      operators := operators - {op};
      var share := SumValues(shares[op]);
      if share == 0 {
        continue;
      }
      MapSumPut(paid, op, share);
      paid := paid[op := share];
      participationSum := participationSum + share;
    }
  }

  method CalcRewardsDistributionInFrame(shares: Participation, rebateShare: nat, rewards: int)
    returns (r: Result<map<OperatorId, int>, DistributionError>)
    ensures r.Failure? <==> rewards < 0
    ensures r.Success? ==> IsDistribution(shares, rebateShare, rewards, r.value)
  {
    hide MapSum, PaidOf, Portion;
    if rewards < 0 {
      return Failure(NegativeRewards);
    }
    PaidArePositive(shares);
    var paid, participationSum := PaidShares(shares);
    var totalShares := rebateShare + participationSum;
    var distribution: map<OperatorId, int> := map[];
    var operators := paid.Keys;
    while operators != {}
      invariant operators <= paid.Keys
      invariant forall op :: op in distribution <==> op in paid && op !in operators
      invariant forall op :: op in distribution ==> IsPortion(rewards, paid[op], totalShares, distribution[op])
      decreases |operators|
    {
      var op :| op in operators;
      operators := operators - {op};
      distribution := distribution[op := Portion(rewards, paid[op], totalShares)];
    }
    var distributedSum := SumValues(distribution);
    SplitBounds(shares, rebateShare, rewards, distribution);
    if distributedSum > rewards {
      assert false;
    }
    return Success(distribution);
  }

  lemma {:induction false} PortionBounds(rewards: nat, share: int, total: int, portion: int)
    requires IsPortion(rewards, share, total, portion)
    ensures rewards * share - (total - 1) <= total * portion <= rewards * share
  {
    var product := rewards * share;
    assert product == total * (product / total) + product % total;
  }

  /** Rounding each part down costs the operators less than one unit of the total each. */
  lemma {:induction false} PortionsBound(
      ops: set<OperatorId>, rewards: nat, total: int, share: OperatorId -> int, portion: OperatorId -> int)
    requires forall op :: op in ops ==> IsPortion(rewards, share(op), total, portion(op))
    ensures total * SetSum(ops, portion) <= rewards * SetSum(ops, share)
    ensures total * SetSum(ops, portion) >= rewards * SetSum(ops, share) - |ops| * (total - 1)
  {
    hide IsPortion;
    var scaled, exact := (op: OperatorId) => total * portion(op), (op: OperatorId) => rewards * share(op);
    var dust, both := (op: OperatorId) => total - 1, (op: OperatorId) => total * portion(op) + (total - 1);
    forall op | op in ops ensures exact(op) - (total - 1) <= scaled(op) <= exact(op) {
      PortionBounds(rewards, share(op), total, portion(op));
    }
    SetSumScales(ops, total, portion, scaled);
    SetSumScales(ops, rewards, share, exact);
    SetSumOfConstant(ops, total - 1, dust);
    SetSumAdds(ops, scaled, dust, both);
    SetSumMonotone(ops, scaled, exact);
    SetSumMonotone(ops, exact, both);
  }

  lemma {:induction false} Cancel(factor: int, a: int, b: int)
    requires factor > 0 && factor * a <= factor * b
    ensures a <= b
  {
    Distribute(factor, a - b, b);
  }

  lemma {:induction false} SplitArithmetic(total: int, rewards: nat, rebateShare: nat, paid: int, distributed: int)
    requires total == rebateShare + paid && total * distributed <= rewards * paid
    ensures total * (rewards - distributed) - rewards * rebateShare == rewards * paid - total * distributed
    ensures total > 0 ==> distributed <= rewards
  {
    Distribute(rewards, rebateShare, paid);
    Distribute(total, rewards - distributed, distributed);
    assert rewards * rebateShare >= 0;
    if total > 0 { Cancel(total, distributed, rewards); }
  }

  /** The floors never pay out more than there is, and what the protocol keeps beyond its exact part is dust. */
  lemma {:induction false} SplitBounds(
      shares: Participation, rebateShare: nat, rewards: nat, distribution: map<OperatorId, int>)
    requires IsDistribution(shares, rebateShare, rewards, distribution)
    ensures 0 <= MapSum(distribution) <= rewards
    ensures PaidOf(shares) == map[] ==> MapSum(distribution) == 0
    ensures var total, rebate := TotalShares(shares, rebateShare), rewards - MapSum(distribution);
      0 <= total * rebate - rewards * rebateShare <= |PaidOf(shares)| * (total - 1)
  {
    hide PaidOf;
    var paid, total := PaidOf(shares), TotalShares(shares, rebateShare);
    PaidArePositive(shares);
    if paid == map[] {
      assert distribution == map[];
      SplitArithmetic(total, rewards, rebateShare, 0, 0);
    } else {
      PortionsBound(paid.Keys, rewards, total, ValueIn(paid), ValueIn(distribution));
      assert distribution.Keys == paid.Keys && |paid.Keys| == |paid|;
      SplitArithmetic(total, rewards, rebateShare, MapSum(paid), MapSum(distribution));
      PortionsNonNegative(paid, total, rewards, distribution);
    }
  }

  lemma {:induction false} PortionsNonNegative(
      paid: map<OperatorId, int>, total: int, rewards: nat, distribution: map<OperatorId, int>)
    requires forall op :: op in distribution ==> op in paid && paid[op] > 0
    requires forall op :: op in distribution ==> IsPortion(rewards, paid[op], total, distribution[op])
    ensures MapSum(distribution) >= 0
  {
    forall op | op in distribution ensures distribution[op] >= 0 {
      assert rewards * paid[op] >= 0;
      NonNegativeQuotient(rewards * paid[op], total);
      assert distribution[op] == (rewards * paid[op]) / total;
    }
    MapSumPositive(distribution);
  }

  lemma {:induction false} NonNegativeQuotient(x: int, d: int)
    requires x >= 0 && d > 0
    ensures x / d >= 0
  {
  }
}
