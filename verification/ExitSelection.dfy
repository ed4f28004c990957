/** The order in which the iterator picks operators, and what that order means over whole runs. */
module ExitSelection {
  import opened Wrappers
  import opened Arithmetic
  import opened Sums
  import opened Sorting
  import opened ExitOrder
  import opened ExitOrderLemmas

  // ----- Sort keys -----

  /** A sort key, compared lexicographically like a Python tuple. */
  datatype Key = Key(force: int, soft: int, shareRate: real, deviation: real, index: int)

  predicate KeyLeq(a: Key, b: Key) {
    if a.force != b.force then a.force < b.force
    else if a.soft != b.soft then a.soft < b.soft
    else if a.shareRate != b.shareRate then a.shareRate < b.shareRate
    else if a.deviation != b.deviation then a.deviation < b.deviation
    else a.index <= b.index
  }

  datatype Keyed = Keyed(key: Key, gid: Gid)

  function KeyedLeq(): (Keyed, Keyed) -> bool {
    (a: Keyed, b: Keyed) => KeyLeq(a.key, b.key)
  }

  lemma {:induction false} KeyedLeqIsTotal()
    ensures TotalPreorder(KeyedLeq())
  {
  }

  function ExpectedValidatorsDiff(current: int, expected: Option<nat>): int {
    if expected.Some? && current > expected.value then current - expected.value else 0
  }

  function ForceSurplus(s: Snapshot, g: Gid): int
    requires g in s.ops
  {
    ExpectedValidatorsDiff(s.ops[g].predictableValidators, s.ops[g].forceExitTo)
  }

  function SoftSurplus(s: Snapshot, g: Gid): int
    requires g in s.ops
  {
    ExpectedValidatorsDiff(s.ops[g].predictableValidators, s.ops[g].softExitTo)
  }

  function ShareRateCoefficient(s: Snapshot, g: Gid): real
    requires g.moduleId in s.modules
  {
    ModuleRate(s.modules[g.moduleId], s.totalBalance)
  }

  /** The balance above which a module's exits get priority. */
  function PriorityLimit(m: ModuleStats, totalBalance: int): int {
    var maxShareRate := m.priorityExitShareThreshold as real / TOTAL_BASIS_POINTS as real;
    (maxShareRate * totalBalance as real).Floor
  }

  function ModuleRate(m: ModuleStats, totalBalance: int): real {
    if m.predictableBalance == 0 then -2.0
    else if m.predictableBalance > PriorityLimit(m, totalBalance)
    then (m.predictableBalance - PriorityLimit(m, totalBalance)) as real
    else -1.0 / m.predictableBalance as real
  }

  function TargetDeviation(s: Snapshot, g: Gid): real
    requires g in s.ops && g.moduleId in s.modules && s.modules[g.moduleId].totalWeight != 0.0
  {
    s.ops[g].totalStake - Portion(s.modules[g.moduleId].totalStake, s.ops[g].weight, s.modules[g.moduleId].totalWeight)
  }

  function LowestIndex(s: Snapshot, g: Gid): int
    requires g in s.exitable
  {
    if s.exitable[g] != [] then s.exitable[g][0].index else 0
  }

  ghost predicate Weighted(s: Snapshot) {
    forall g :: g in s.order && g.moduleId in s.modules ==> s.modules[g.moduleId].totalWeight != 0.0
  }

  function KeyOf(s: Snapshot, g: Gid): Key
    requires g in s.ops && g.moduleId in s.modules && g in s.exitable && s.modules[g.moduleId].totalWeight != 0.0
  {
    Key(-ForceSurplus(s, g), -SoftSurplus(s, g), -ShareRateCoefficient(s, g), -TargetDeviation(s, g),
        LowestIndex(s, g))
  }

  function ForcedKeyOf(s: Snapshot, g: Gid): Key
    requires g in s.ops && g in s.exitable
  {
    Key(-ForceSurplus(s, g), 0, 0.0, 0.0, LowestIndex(s, g))
  }

  predicate CanExit(s: Snapshot, g: Gid) {
    g in s.ops && g.moduleId in s.modules && g in s.exitable && s.exitable[g] != []
  }

  /** `g` has the least key among the operators that still have exitable validators. */
  ghost predicate IsNext(s: Snapshot, g: Gid)
    requires Shape(s) && Weighted(s)
  {
    CanExit(s, g) && forall h :: CanExit(s, h) ==> KeyLeq(KeyOf(s, g), KeyOf(s, h))
  }

  predicate CanBeForced(s: Snapshot, g: Gid) {
    CanExit(s, g) && ForceSurplus(s, g) > 0
  }

  ghost predicate IsNextForced(s: Snapshot, g: Gid)
    requires Shape(s)
  {
    CanBeForced(s, g) && forall h :: CanBeForced(s, h) ==> KeyLeq(ForcedKeyOf(s, g), ForcedKeyOf(s, h))
  }

  // ----- The key means something -----

  lemma {:induction false} TargetsAddUp(order: seq<Gid>, weights: Gid -> real, stake: real, targets: Gid -> real)
    requires Sum(order, weights) != 0.0
    requires forall g :: g in order ==> targets(g) == Portion(stake, weights(g), Sum(order, weights))
    ensures Sum(order, targets) == stake
  {
    var rate := PortionRate(stake, Sum(order, weights));
    SumScales(order, weights, rate, targets);
  }

  function Excess(s: Snapshot, m: ModuleId): int
    requires m in s.modules
  {
    s.modules[m].predictableBalance - PriorityLimit(s.modules[m], s.totalBalance)
  }

  /** Among modules above their share the larger excess ranks first, then the larger balance, and empty ones last. */
  lemma {:induction false} ShareRatePriority(s: Snapshot, g: Gid, h: Gid)
    requires g.moduleId in s.modules && h.moduleId in s.modules && s.totalBalance >= 0
    requires s.modules[g.moduleId].predictableBalance >= 0 && s.modules[h.moduleId].predictableBalance > 0
    ensures s.modules[g.moduleId].predictableBalance == 0 ==> ShareRateCoefficient(s, g) < ShareRateCoefficient(s, h)
    ensures Excess(s, h.moduleId) > 0 <==> ShareRateCoefficient(s, h) > 0.0
    ensures Excess(s, g.moduleId) > 0 && Excess(s, h.moduleId) > 0 ==>
      (ShareRateCoefficient(s, g) < ShareRateCoefficient(s, h)
       <==> Excess(s, g.moduleId) < Excess(s, h.moduleId))
    ensures s.modules[g.moduleId].predictableBalance > 0 && Excess(s, g.moduleId) <= 0 && Excess(s, h.moduleId) <= 0 ==>
      (ShareRateCoefficient(s, g) < ShareRateCoefficient(s, h)
       <==> s.modules[g.moduleId].predictableBalance < s.modules[h.moduleId].predictableBalance)
  {
    hide Excess, ShareRateCoefficient;
    var b, c := s.modules[g.moduleId].predictableBalance as real, s.modules[h.moduleId].predictableBalance as real;
    RateByCase(s, g);
    RateByCase(s, h);
    InverseOrder(c);
    if b > 0.0 { InversesCompare(b, c); }
  }

  lemma {:induction false} RateByCase(s: Snapshot, g: Gid)
    requires g.moduleId in s.modules && s.modules[g.moduleId].predictableBalance >= 0 && s.totalBalance >= 0
    ensures Excess(s, g.moduleId) > 0 ==> s.modules[g.moduleId].predictableBalance > 0
    ensures var balance, rate := s.modules[g.moduleId].predictableBalance, ShareRateCoefficient(s, g);
      if balance == 0 then rate == -2.0
      else if Excess(s, g.moduleId) > 0 then rate == Excess(s, g.moduleId) as real
      else rate == -1.0 / balance as real
  {
    assert PriorityLimit(s.modules[g.moduleId], s.totalBalance) >= 0 by {
      LimitIsNatural(s.modules[g.moduleId], s.totalBalance);
    }
    hide PriorityLimit;
  }

  lemma {:induction false} LimitIsNatural(m: ModuleStats, totalBalance: int)
    requires totalBalance >= 0
    ensures PriorityLimit(m, totalBalance) >= 0
  {
    var share := m.priorityExitShareThreshold as real / TOTAL_BASIS_POINTS as real;
    assert share >= 0.0;
    assert share * totalBalance as real >= 0.0;
  }

  lemma {:induction false} InverseOrder(c: real)
    requires c >= 1.0
    ensures -1.0 <= -1.0 / c < 0.0
  {
    var q := -1.0 / c;
    assert q * c == -1.0;
    assert (q + 1.0) * c == c - 1.0;
  }

  lemma {:induction false} InversesCompare(b: real, c: real)
    requires b > 0.0 && c > 0.0
    ensures -1.0 / b < -1.0 / c <==> b < c
  {
    var p, q := -1.0 / b, -1.0 / c;
    assert p * b == -1.0 && q * c == -1.0;
    assert (p - q) * (b * c) == b - c;
  }

  /** Within a module, and under equal limits, the operator furthest above its target stake is picked. */
  lemma {:induction false} BiggestDeviationFirst(s: Snapshot, g: Gid, h: Gid)
    requires Shape(s) && Weighted(s) && IsNext(s, g) && CanExit(s, h) && g.moduleId == h.moduleId
    requires ForceSurplus(s, g) == ForceSurplus(s, h) && SoftSurplus(s, g) == SoftSurplus(s, h)
    ensures TargetDeviation(s, g) >= TargetDeviation(s, h)
    ensures TargetDeviation(s, g) == TargetDeviation(s, h) ==> s.exitable[g][0].index <= s.exitable[h][0].index
  {
    hide TargetDeviation, ShareRateCoefficient;
    assert KeyLeq(KeyOf(s, g), KeyOf(s, h));
    assert ShareRateCoefficient(s, g) == ShareRateCoefficient(s, h) by { SameModuleSameRate(s, g, h); }
  }

  lemma {:induction false} SameModuleSameRate(s: Snapshot, g: Gid, h: Gid)
    requires g.moduleId == h.moduleId && g.moduleId in s.modules
    ensures ShareRateCoefficient(s, g) == ShareRateCoefficient(s, h)
  {
  }

  /** Within a module the deviations from the target stake cancel out. */
  lemma {:induction false} DeviationsSumToZero(s: Snapshot, m: ModuleId, deviation: Gid -> real)
    requires Shape(s) && TotalsFresh(s) && WeightsFresh(s) && m in s.modules && s.modules[m].totalWeight != 0.0
    requires forall g :: g in s.order ==> deviation(g) == if g.moduleId == m then TargetDeviation(s, g) else 0.0
    ensures Sum(s.order, deviation) == 0.0
  {
    var stakes, weights := Within(m, Stakes(s.ops)), Within(m, Weights(s.ops));
    var stake, weight := s.modules[m].totalStake, s.modules[m].totalWeight;
    var targets := (g: Gid) => Portion(stake, weights(g), weight);
    forall g | g in s.order ensures stakes(g) == deviation(g) + targets(g) {
      if g.moduleId != m { assert Portion(stake, 0.0, weight) == 0.0; }
    }
    SumAdds(s.order, deviation, targets, stakes);
    TargetsAddUp(s.order, weights, stake, targets);
  }

  ghost predicate Ascending(vs: seq<LidoValidator>) {
    forall i, j :: 0 <= i < j < |vs| ==> vs[i].index < vs[j].index
  }

  /** Validators are listed by index inside an operator, and no two operators share one. */
  ghost predicate ValidatorsDistinct(s: Snapshot) {
    && (forall g :: g in s.exitable ==> Ascending(s.exitable[g]))
    && forall g, h, v, w :: g in s.exitable && h in s.exitable && g != h && v in s.exitable[g] && w in s.exitable[h]
         ==> v.index != w.index
  }

  /** The pick is determined: neither the dictionary order nor the stability of the sort matters. */
  lemma {:induction false} NextIsUnique(s: Snapshot, g: Gid, h: Gid)
    requires Shape(s) && Weighted(s) && ValidatorsDistinct(s) && IsNext(s, g) && IsNext(s, h)
    ensures g == h
  {
    var v, w := s.exitable[g][0], s.exitable[h][0];
    assert v in s.exitable[g] && w in s.exitable[h];
    assert KeyLeq(KeyOf(s, g), KeyOf(s, h)) && KeyLeq(KeyOf(s, h), KeyOf(s, g));
    assert v.index == KeyOf(s, g).index == KeyOf(s, h).index == w.index;
  }

  // ----- Runs -----

  /** Each pick ejects the first exitable validator of its operator. */
  ghost predicate IsEjectionRun(states: seq<Snapshot>, picks: seq<Gid>) {
    && |states| == |picks| + 1
    && forall i :: 0 <= i < |picks| ==> CanExit(states[i], picks[i]) && states[i + 1] == Ejected(states[i], picks[i])
  }

  /** An ejection run whose picks follow the sort order. */
  ghost predicate IsIteratorRun(states: seq<Snapshot>, picks: seq<Gid>) {
    && IsEjectionRun(states, picks)
    && forall i :: 0 <= i < |picks| ==> Shape(states[i]) && Weighted(states[i]) && IsNext(states[i], picks[i])
  }

  function Yielded(states: seq<Snapshot>, picks: seq<Gid>, i: nat): LidoValidator
    requires i < |picks| && i < |states| && CanExit(states[i], picks[i])
  {
    states[i].exitable[picks[i]][0]
  }

  lemma {:induction false} EjectedOperatorFields(s: Snapshot, g: Gid, h: Gid)
    requires Shape(s) && CanExit(s, g) && h in s.ops
    ensures var t := Ejected(s, g);
      && h in t.ops && t.ops[h].forceExitTo == s.ops[h].forceExitTo && t.ops[h].softExitTo == s.ops[h].softExitTo
      && t.ops[h].predictableValidators == s.ops[h].predictableValidators - (if h == g then 1 else 0)
      && t.exitable == s.exitable[g := s.exitable[g][1..]]
  {
  }

  /** 0 while operators above their forced target have validators, then 1 for the soft target, then 2. */
  function Phase(s: Snapshot, g: Gid): nat
    requires g in s.ops
  {
    if ForceSurplus(s, g) > 0 then 0 else if SoftSurplus(s, g) > 0 then 1 else 2
  }

  /** The later pick ranks no higher than the earlier one, first by forced and then by soft surplus. */
  ghost predicate NoHigher(s: Snapshot, g: Gid, t: Snapshot, h: Gid) {
    && g in s.ops && h in t.ops
    && 0 <= ForceSurplus(t, h) <= ForceSurplus(s, g)
    && 0 <= SoftSurplus(t, h)
    && (ForceSurplus(s, g) == 0 ==> SoftSurplus(t, h) <= SoftSurplus(s, g))
  }

  lemma {:induction false} PhaseStep(s: Snapshot, g: Gid, t: Snapshot, h: Gid)
    requires Shape(s) && Weighted(s) && IsNext(s, g) && t == Ejected(s, g) && CanExit(t, h)
    ensures NoHigher(s, g, t, h)
  {
    EjectedOperatorFields(s, g, h);
    assert CanExit(s, h);
    assert KeyLeq(KeyOf(s, g), KeyOf(s, h));
  }

  lemma {:induction false} PicksNeverRise(states: seq<Snapshot>, picks: seq<Gid>, i: nat, j: nat)
    requires IsIteratorRun(states, picks) && i <= j < |picks|
    ensures NoHigher(states[i], picks[i], states[j], picks[j])
    decreases j
  {
    hide KeyOf, Ejected, IsNext;
    if i < j {
      PicksNeverRise(states, picks, i, j - 1);
      assert states[j - 1 + 1] == Ejected(states[j - 1], picks[j - 1]);
      PhaseStep(states[j - 1], picks[j - 1], states[j], picks[j]);
    }
  }

  /** Along a run the forced surplus of the picks never grows, and the three phases follow each other. */
  lemma {:induction false} PhasesInOrder(states: seq<Snapshot>, picks: seq<Gid>, i: nat, j: nat)
    requires IsIteratorRun(states, picks) && i <= j < |picks|
    ensures ForceSurplus(states[j], picks[j]) <= ForceSurplus(states[i], picks[i])
    ensures ForceSurplus(states[i], picks[i]) == 0 ==>
      SoftSurplus(states[j], picks[j]) <= SoftSurplus(states[i], picks[i])
    ensures Phase(states[i], picks[i]) <= Phase(states[j], picks[j])
  {
    PicksNeverRise(states, picks, i, j);
  }

  /** What is left of an operator later in a run is a tail of what was there. */
  lemma {:induction false} RemainingIsTail(states: seq<Snapshot>, picks: seq<Gid>, i: nat, j: nat, g: Gid)
    requires IsEjectionRun(states, picks) && i <= j < |states| && g in states[i].exitable
    ensures g in states[j].exitable && |states[j].exitable[g]| <= |states[i].exitable[g]|
    ensures states[j].exitable[g] == states[i].exitable[g][|states[i].exitable[g]| - |states[j].exitable[g]|..]
    ensures i < j && i < |picks| && picks[i] == g ==> |states[j].exitable[g]| < |states[i].exitable[g]|
    decreases j - i
  {
    if i < j {
      assert states[i + 1] == Ejected(states[i], picks[i]);
      RemainingIsTail(states, picks, i + 1, j, g);
    }
  }

  /** No validator is ejected twice, and within an operator the indices ascend. */
  lemma {:induction false} EjectedOnceAndAscending(states: seq<Snapshot>, picks: seq<Gid>, i: nat, j: nat)
    requires IsEjectionRun(states, picks) && i < j < |picks| && ValidatorsDistinct(states[0])
    ensures Yielded(states, picks, i).index != Yielded(states, picks, j).index
    ensures picks[i] == picks[j] ==> Yielded(states, picks, i).index < Yielded(states, picks, j).index
  {
    var g, h := picks[i], picks[j];
    OriginallyPresent(states, picks, i, g);
    OriginallyPresent(states, picks, j, h);
    if g == h {
      RemainingIsTail(states, picks, 0, i, g);
      RemainingIsTail(states, picks, i, j, g);
    }
  }

  lemma {:induction false} OriginallyPresent(states: seq<Snapshot>, picks: seq<Gid>, i: nat, g: Gid)
    requires IsEjectionRun(states, picks) && i < |states| && g in states[i].exitable && states[i].exitable[g] != []
    ensures g in states[0].exitable && states[i].exitable[g][0] in states[0].exitable[g]
    decreases i
  {
    SameOperators(states, picks, i);
    RemainingIsTail(states, picks, 0, i, g);
  }

  lemma {:induction false} SameOperators(states: seq<Snapshot>, picks: seq<Gid>, i: nat)
    requires IsEjectionRun(states, picks) && i < |states|
    ensures states[i].exitable.Keys == states[0].exitable.Keys
    decreases i
  {
    if i > 0 {
      SameOperators(states, picks, i - 1);
      assert states[i - 1 + 1] == Ejected(states[i - 1], picks[i - 1]);
    }
  }

  /** After any number of ejections every figure is still what a fresh recomputation gives. */
  lemma {:induction false} RunStaysFresh(
      states: seq<Snapshot>, picks: seq<Gid>, i: nat, pending: seq<PendingValidator>)
    requires IsEjectionRun(states, picks) && i < |states|
    requires Fresh(states[0], pending) && WeightsFresh(states[0])
    ensures Fresh(states[i], pending) && WeightsFresh(states[i])
    decreases i
  {
    if i > 0 {
      RunStaysFresh(states, picks, i - 1, pending);
      assert states[i - 1 + 1] == Ejected(states[i - 1], picks[i - 1]);
      EjectedKeepsFresh(states[i - 1], picks[i - 1], pending);
      EjectedKeepsWeights(states[i - 1], picks[i - 1]);
    }
  }
}
