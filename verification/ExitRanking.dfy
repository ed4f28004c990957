/** Which validator is picked next, told from the figures themselves. */
module ExitRanking {
  import opened Wrappers
  import opened Arithmetic
  import opened Sums
  import opened ExitOrder
  import opened ExitSelection
  import opened ExitOrderIterator

  // ----- The documented order -----

  /** How far a count is above its target; without a target, or at most at it, that is 0. */
  function Above(current: int, target: Option<nat>): (n: nat)
    ensures n > 0 <==> target.Some? && target.value < current
    ensures n > 0 ==> target.value + n == current
  {
    if target.Some? && target.value < current then current - target.value else 0
  }

  function ForcedAbove(o: OperatorStats): nat {
    Above(o.predictableValidators, o.forceExitTo)
  }

  function SoftAbove(o: OperatorStats): nat {
    Above(o.predictableValidators, o.softExitTo)
  }

  /** What the module holds above its share of the total; the share is in basis points, and rounded down. */
  function Excess(m: ModuleStats, total: int): int {
    m.predictableBalance - m.priorityExitShareThreshold * total / 10000
  }

  /** Modules above their share come first, by that excess; the others follow by what they hold. */
  predicate ModuleBefore(a: ModuleStats, b: ModuleStats, total: int) {
    if Excess(a, total) > 0 then Excess(b, total) < Excess(a, total)
    else Excess(b, total) <= 0 && b.predictableBalance < a.predictableBalance
  }

  predicate ModulesLevel(a: ModuleStats, b: ModuleStats, total: int) {
    if Excess(a, total) > 0 then Excess(b, total) == Excess(a, total)
    else Excess(b, total) <= 0 && b.predictableBalance == a.predictableBalance
  }

  /** The stake of an operator less its part, by weight, of the module's stake. */
  function AboveTargetStake(o: OperatorStats, m: ModuleStats): real
    requires m.totalWeight != 0.0
  {
    o.totalStake - m.totalStake * o.weight / m.totalWeight
  }

  predicate HasValidators(s: Snapshot, g: Gid) {
    g in s.ops && g.moduleId in s.modules && g in s.exitable && s.exitable[g] != []
  }

  /** Within level modules: the stake furthest above its target, then the lowest validator index. */
  predicate StakeBefore(s: Snapshot, g: Gid, h: Gid)
    requires HasValidators(s, g) && HasValidators(s, h)
    requires s.modules[g.moduleId].totalWeight != 0.0 && s.modules[h.moduleId].totalWeight != 0.0
  {
    var x, y := AboveTargetStake(s.ops[g], s.modules[g.moduleId]), AboveTargetStake(s.ops[h], s.modules[h.moduleId]);
    x > y || (x == y && s.exitable[g][0].index <= s.exitable[h][0].index)
  }

  predicate BalanceBefore(s: Snapshot, g: Gid, h: Gid)
    requires HasValidators(s, g) && HasValidators(s, h)
    requires s.modules[g.moduleId].totalWeight != 0.0 && s.modules[h.moduleId].totalWeight != 0.0
  {
    || ModuleBefore(s.modules[g.moduleId], s.modules[h.moduleId], s.totalBalance)
    || (ModulesLevel(s.modules[g.moduleId], s.modules[h.moduleId], s.totalBalance) && StakeBefore(s, g, h))
  }

  /** The whole order: forced exits, then soft ones, then the modules, then the stakes. */
  predicate RanksBefore(s: Snapshot, g: Gid, h: Gid)
    requires HasValidators(s, g) && HasValidators(s, h)
    requires s.modules[g.moduleId].totalWeight != 0.0 && s.modules[h.moduleId].totalWeight != 0.0
  {
    var o, p := s.ops[g], s.ops[h];
    if ForcedAbove(o) != ForcedAbove(p) then ForcedAbove(o) > ForcedAbove(p)
    else if SoftAbove(o) != SoftAbove(p) then SoftAbove(o) > SoftAbove(p)
    else BalanceBefore(s, g, h)
  }

  ghost predicate RanksFirst(s: Snapshot, g: Gid)
    requires Shape(s) && Weighted(s)
  {
    HasValidators(s, g) && forall h :: HasValidators(s, h) ==> RanksBefore(s, g, h)
  }

  /** The order of forced exits: the most above the target, then the lowest validator index. */
  predicate ForcedBefore(s: Snapshot, g: Gid, h: Gid)
    requires HasValidators(s, g) && HasValidators(s, h)
  {
    var n, m := ForcedAbove(s.ops[g]), ForcedAbove(s.ops[h]);
    m < n || (m == n && s.exitable[g][0].index <= s.exitable[h][0].index)
  }

  ghost predicate RanksFirstForced(s: Snapshot, g: Gid) {
    && HasValidators(s, g) && ForcedAbove(s.ops[g]) > 0
    && forall h :: HasValidators(s, h) ==> ForcedBefore(s, g, h)
  }

  // ----- It is the order of the sort keys -----

  lemma {:induction false} SurplusIsAbove(s: Snapshot, g: Gid)
    requires g in s.ops
    ensures ForceSurplus(s, g) == ForcedAbove(s.ops[g]) && SoftSurplus(s, g) == SoftAbove(s.ops[g])
  {
  }

  lemma {:induction false} FloorOfShare(threshold: nat, total: int)
    requires total >= 0
    ensures (threshold as real / TOTAL_BASIS_POINTS as real * total as real).Floor == threshold * total / 10000
  {
    var share := threshold as real / 10000.0;
    var product, x := threshold * total, share * total as real;
    assert x * 10000.0 == product as real by {
      assert share * 10000.0 == threshold as real;
      assert share * total as real * 10000.0 == share * 10000.0 * total as real;
    }
    var q := x.Floor;
    assert q as real <= x < q as real + 1.0;
    QuotientIs(product, 10000, q);
  }

  lemma {:induction false} ExcessAgrees(s: Snapshot, m: ModuleId)
    requires m in s.modules && s.totalBalance >= 0
    ensures ExitSelection.Excess(s, m) == Excess(s.modules[m], s.totalBalance)
  {
    FloorOfShare(s.modules[m].priorityExitShareThreshold, s.totalBalance);
  }

  /** Nothing is negative. */
  ghost predicate NonNegative(s: Snapshot) {
    s.totalBalance >= 0 && forall m :: m in s.modules ==> s.modules[m].predictableBalance >= 0
  }

  lemma {:induction false} RatesCompare(s: Snapshot, g: Gid, h: Gid)
    requires g.moduleId in s.modules && h.moduleId in s.modules && NonNegative(s)
    ensures var a, b := s.modules[g.moduleId], s.modules[h.moduleId];
      && (ModuleBefore(a, b, s.totalBalance) <==> ShareRateCoefficient(s, g) > ShareRateCoefficient(s, h))
      && (ModulesLevel(a, b, s.totalBalance) <==> ShareRateCoefficient(s, g) == ShareRateCoefficient(s, h))
  {
    ExcessAgrees(s, g.moduleId);
    ExcessAgrees(s, h.moduleId);
    hide ExitSelection.Excess, Excess, ShareRateCoefficient;
    var a, b := s.modules[g.moduleId].predictableBalance as real, s.modules[h.moduleId].predictableBalance as real;
    RateByCase(s, g);
    RateByCase(s, h);
    if a > 0.0 { InverseOrder(a); }
    if b > 0.0 { InverseOrder(b); }
    if a > 0.0 && b > 0.0 { InversesCompare(a, b); InversesCompare(b, a); }
  }

  lemma {:induction false} KeysAreRanks(s: Snapshot, g: Gid, h: Gid)
    requires Shape(s) && Weighted(s) && NonNegative(s) && HasValidators(s, g) && HasValidators(s, h)
    ensures KeyLeq(KeyOf(s, g), KeyOf(s, h)) <==> RanksBefore(s, g, h)
  {
    hide ForcedAbove, SoftAbove, ModuleBefore, ModulesLevel, ShareRateCoefficient, ForceSurplus, SoftSurplus;
    RatesCompare(s, g, h);
    SurplusIsAbove(s, g);
    SurplusIsAbove(s, h);
    assert TargetDeviation(s, g) == AboveTargetStake(s.ops[g], s.modules[g.moduleId]);
    assert TargetDeviation(s, h) == AboveTargetStake(s.ops[h], s.modules[h.moduleId]);
    hide TargetDeviation, AboveTargetStake;
  }

  /** The next pick is exactly the operator that ranks first. */
  lemma {:induction false} NextRanksFirst(s: Snapshot, g: Gid)
    requires Shape(s) && Weighted(s) && NonNegative(s)
    ensures IsNext(s, g) <==> RanksFirst(s, g)
  {
    hide KeyOf, KeyLeq, RanksBefore, NonNegative;
    if CanExit(s, g) {
      forall h | CanExit(s, h) ensures KeyLeq(KeyOf(s, g), KeyOf(s, h)) <==> RanksBefore(s, g, h) {
        KeysAreRanks(s, g, h);
      }
    }
  }

  /** The next forced pick is exactly the operator that ranks first among those above their forced target. */
  lemma {:induction false} NextForcedRanksFirst(s: Snapshot, g: Gid)
    requires Shape(s)
    ensures IsNextForced(s, g) <==> RanksFirstForced(s, g)
  {
    hide ForcedAbove, ForceSurplus;
    forall h | HasValidators(s, h)
      ensures CanBeForced(s, h) <==> ForcedAbove(s.ops[h]) > 0
      ensures CanBeForced(s, g) ==> (KeyLeq(ForcedKeyOf(s, g), ForcedKeyOf(s, h)) <==> ForcedBefore(s, g, h))
    {
      SurplusIsAbove(s, h);
      if HasValidators(s, g) { SurplusIsAbove(s, g); }
    }
    hide ForcedKeyOf, KeyLeq;
    if HasValidators(s, g) {
      assert CanBeForced(s, g) <==> ForcedAbove(s.ops[g]) > 0;
      forall h | HasValidators(s, h) && IsNextForced(s, g) ensures ForcedBefore(s, g, h) {
        if CanBeForced(s, h) { assert KeyLeq(ForcedKeyOf(s, g), ForcedKeyOf(s, h)); }
      }
      forall h | CanBeForced(s, h) && RanksFirstForced(s, g) ensures KeyLeq(ForcedKeyOf(s, g), ForcedKeyOf(s, h)) {
        assert HasValidators(s, h);
      }
    }
  }

  // ----- On every run -----

  lemma {:induction false} FreshIsNonNegative(s: Snapshot, pending: seq<PendingValidator>)
    requires Fresh(s, pending)
    ensures NonNegative(s)
  {
    forall m | m in s.modules ensures s.modules[m].predictableBalance >= 0 {
      BalancesSumNonNegative(s, pending, Within(m, Balances(s.ops)));
    }
    BalancesSumNonNegative(s, pending, Balances(s.ops));
  }

  lemma {:induction false} BalancesSumNonNegative(s: Snapshot, pending: seq<PendingValidator>, f: Gid -> real)
    requires Fresh(s, pending) && forall g :: f(g) == Balances(s.ops)(g) || f(g) == 0.0
    ensures Sum(s.order, f) >= 0.0
  {
    hide LinksOk, StakesFresh, TotalsFresh, Distinct;
    forall g | g in s.order ensures f(g) >= 0.0 {
    }
    SumNonNegative(s.order, |s.order|, f);
  }

  lemma {:induction false} SumNonNegative(xs: seq<Gid>, n: nat, f: Gid -> real)
    requires n <= |xs| && forall x :: x in xs ==> f(x) >= 0.0
    ensures SumTo(xs, n, f) >= 0.0
    decreases n
  {
    if n > 0 { SumNonNegative(xs, n - 1, f); }
  }

  /** From a fresh state on, every pick of an iterator run ranks first. */
  lemma {:induction false} PicksRankFirst(
      states: seq<Snapshot>, picks: seq<Gid>, i: nat, pending: seq<PendingValidator>)
    requires IsIteratorRun(states, picks) && i < |picks| && Fresh(states[0], pending) && WeightsFresh(states[0])
    ensures RanksFirst(states[i], picks[i])
  {
    hide Fresh, WeightsFresh, IsNext, RanksFirst, NonNegative;
    RunStaysFresh(states, picks, i, pending);
    FreshIsNonNegative(states[i], pending);
    NextRanksFirst(states[i], picks[i]);
  }

  /** Every pick of a run of forced exits ranks first among those above their forced target. */
  lemma {:induction false} ForcedPicksRankFirst(states: seq<Snapshot>, picks: seq<Gid>, i: nat)
    requires IsForcedRun(states, picks) && i < |picks|
    ensures RanksFirstForced(states[i], picks[i])
  {
    hide IsNextForced, RanksFirstForced;
    NextForcedRanksFirst(states[i], picks[i]);
  }
}
