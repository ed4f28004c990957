/** The validator exit iterator itself: the loops that keep the figures and pick the validators. */
module ExitOrderIterator {
  import opened Wrappers
  import opened Sums
  import opened Sorting
  import opened ValidatorState
  import opened ExitOrder
  import opened ExitOrderLemmas
  import opened ExitGroupLemmas
  import opened ExitSelection
  import opened ExitOrderSteps
  import opened ExitPreparation

  datatype NextResult = Yield(gid: Gid, validator: LidoValidator) | StopIteration | DivisionByZero

  datatype Ejection = Ejection(gid: Gid, validator: LidoValidator)

  // ----- The steps of one ejection -----

  function StakeTaken(modules: map<ModuleId, ModuleStats>, m: ModuleId, balance: int): map<ModuleId, ModuleStats>
    requires m in modules
  {
    modules[m := modules[m].(totalStake := modules[m].totalStake - balance as real)]
  }

  function ExternalsDecreased(ops: map<Gid, OperatorStats>, group: OperatorGroup, n: nat, balance: int)
    : map<Gid, OperatorStats>
    requires n <= |group.externals| && group.externals != []
  {
    map g | g in ops ::
      if g in group.externals[..n]
      then ops[g].(totalStake := ops[g].totalStake - EqualPart(balance as real, |group.externals|)) else ops[g]
  }

  function InternalsDecreased(
      ops: map<Gid, OperatorStats>, group: OperatorGroup, cmV2: ModuleId, n: nat, balance: int, total: real)
    : map<Gid, OperatorStats>
    requires n <= |group.subs| && total != 0.0
  {
    map g | g in ops ::
      if g in group.Internals(cmV2)[..n]
      then ops[g].(totalStake := ops[g].totalStake - Portion(balance as real, ops[g].weight, total)) else ops[g]
  }

  function OwnDecreased(ops: map<Gid, OperatorStats>, g: Gid, balance: int): map<Gid, OperatorStats>
    requires g in ops
  {
    ops[g := ops[g].(totalStake := ops[g].totalStake - balance as real)]
  }

  /** The steps of decreasing the affected stakes, put together: a sub operator of a group. */
  lemma {:induction false} DecreasedThroughExternals(s: Snapshot, g: Gid, balance: int, group: OperatorGroup)
    requires Shape(s) && LinksOk(s) && g in s.ops
    requires s.ops[g].internalGroup == Some(group) && group.HasConnection()
    ensures ExternalsDecreased(OwnDecreased(s.ops, g, balance), group, |group.externals|, balance)
      == Decreased(s, g, balance).ops
  {
    hide Portion, EqualPart, Sum, Distinct;
    assert group.externals[..|group.externals|] == group.externals;
    assert s.ops[g].externalGroup.None? && g !in group.externals;
  }

  /** An external operator of a group. */
  lemma {:induction false} DecreasedThroughInternals(s: Snapshot, g: Gid, balance: int, group: OperatorGroup)
    requires Shape(s) && LinksOk(s) && g in s.ops
    requires s.ops[g].externalGroup == Some(group) && group.HasConnection()
    ensures InternalWeight(s.ops, group, s.cmV2) != 0.0
    ensures InternalsDecreased(OwnDecreased(s.ops, g, balance), group, s.cmV2, |group.subs|, balance,
        InternalWeight(s.ops, group, s.cmV2)) == Decreased(s, g, balance).ops
  {
    hide Portion, EqualPart, Sum, Distinct;
    var internals := group.Internals(s.cmV2);
    assert internals[..|group.subs|] == internals;
    assert s.ops[g].internalGroup.None? && g !in internals;
  }

  lemma {:induction false} DecreasedAlone(s: Snapshot, g: Gid, balance: int)
    requires Shape(s) && LinksOk(s) && g in s.ops
    requires s.ops[g].internalGroup.None? || !s.ops[g].internalGroup.value.HasConnection()
    requires s.ops[g].externalGroup.None? || !s.ops[g].externalGroup.value.HasConnection()
    ensures OwnDecreased(s.ops, g, balance) == Decreased(s, g, balance).ops
  {
  }

  /** The modules lose what the source takes off them one by one. */
  lemma {:induction false} DecreasedModules(s: Snapshot, g: Gid, balance: int)
    requires Shape(s) && LinksOk(s) && g in s.ops
    ensures var own := StakeTaken(s.modules, g.moduleId, balance);
      var internal, external := s.ops[g].internalGroup, s.ops[g].externalGroup;
      Decreased(s, g, balance).modules ==
        if internal.Some? && internal.value.HasConnection() then StakeTaken(own, s.cmV1, balance)
        else if external.Some? && external.value.HasConnection() then StakeTaken(own, s.cmV2, balance)
        else own
    ensures Decreased(s, g, balance)
      == s.(modules := Decreased(s, g, balance).modules, ops := Decreased(s, g, balance).ops)
  {
    GroupOfOperator(s, g);
    hide LinksOk, LinkedDecrease;
  }

  lemma {:induction false} GroupOfOperator(s: Snapshot, g: Gid)
    requires Shape(s) && LinksOk(s) && g in s.ops
    ensures s.ops[g].internalGroup.None? || s.ops[g].externalGroup.None?
    ensures s.ops[g].internalGroup.Some? ==> GroupLinked(s, s.ops[g].internalGroup.value)
    ensures s.ops[g].externalGroup.Some? ==> GroupLinked(s, s.ops[g].externalGroup.value)
  {
  }

  lemma {:induction false} OwnDecreasedWeight(
      ops: map<Gid, OperatorStats>, g: Gid, balance: int, group: OperatorGroup, cmV2: ModuleId)
    requires g in ops
    ensures InternalWeight(OwnDecreased(ops, g, balance), group, cmV2) == InternalWeight(ops, group, cmV2)
  {
    WeightsUnchanged(group.Internals(cmV2), ops, OwnDecreased(ops, g, balance));
  }

  lemma {:induction false} PoppedKeepsLinks(s: Snapshot, g: Gid)
    requires Shape(s) && LinksOk(s) && CanExit(s, g)
    ensures Shape(Popped(s, g)) && LinksOk(Popped(s, g))
  {
    var t := Popped(s, g);
    forall group | GroupLinked(s, group) ensures GroupLinked(t, group) {
      WeightsUnchanged(group.Internals(s.cmV2), s.ops, t.ops);
    }
  }

  /** How many validators are left to exit. */
  function Remaining(order: seq<Gid>, exitable: map<Gid, seq<LidoValidator>>): nat {
    if order == [] then 0
    else
      var last := order[|order| - 1];
      Remaining(order[..|order| - 1], exitable) + (if last in exitable then |exitable[last]| else 0)
  }

  lemma {:induction false} RemainingDrops(order: seq<Gid>, exitable: map<Gid, seq<LidoValidator>>, g: Gid)
    requires Distinct(order) && g in exitable && exitable[g] != []
    ensures Remaining(order, exitable[g := exitable[g][1..]])
      == Remaining(order, exitable) - (if g in order then 1 else 0)
  {
    if order != [] {
      RemainingDrops(order[..|order| - 1], exitable, g);
      assert order == order[..|order| - 1] + [order[|order| - 1]];
    }
  }

  function ExitBalance(ejections: seq<Ejection>): nat {
    if ejections == [] then 0
    else ExitBalance(ejections[..|ejections| - 1]) + GetMaxEffectiveBalance(ejections[|ejections| - 1].validator.state)
  }

  lemma {:induction false} ExitBalanceStep(ejections: seq<Ejection>, e: Ejection)
    ensures ExitBalance(ejections + [e]) == ExitBalance(ejections) + GetMaxEffectiveBalance(e.validator.state)
  {
    assert (ejections + [e])[..|ejections|] == ejections;
  }

  /** `ejections` are what an ejection run yielded. */
  ghost predicate YieldsOf(states: seq<Snapshot>, ejections: seq<Ejection>) {
    && IsEjectionRun(states, Picks(ejections))
    && forall i :: 0 <= i < |ejections| ==> ejections[i].validator == Yielded(states, Picks(ejections), i)
  }

  function Picks(ejections: seq<Ejection>): (r: seq<Gid>)
    ensures |r| == |ejections|
  {
    seq(|ejections|, i requires 0 <= i < |ejections| => ejections[i].gid)
  }

  lemma {:induction false} YieldsExtend(states: seq<Snapshot>, ejections: seq<Ejection>, g: Gid, v: LidoValidator)
    requires YieldsOf(states, ejections)
    requires CanExit(states[|ejections|], g) && v == states[|ejections|].exitable[g][0]
    ensures YieldsOf(states + [Ejected(states[|ejections|], g)], ejections + [Ejection(g, v)])
  {
    var more, longer := states + [Ejected(states[|ejections|], g)], ejections + [Ejection(g, v)];
    forall i | 0 <= i < |longer|
      ensures CanExit(more[i], Picks(longer)[i]) && more[i + 1] == Ejected(more[i], Picks(longer)[i])
      ensures longer[i].validator == Yielded(more, Picks(longer), i)
    {
      if i < |ejections| { assert Picks(longer)[i] == Picks(ejections)[i]; }
    }
  }

  // ----- Sorting the operators -----

  ghost predicate Sortable(s: Snapshot, forced: bool) {
    Shape(s) && (forced || Weighted(s))
  }

  /** The key of the main order, or of the order of the remaining forced exits. */
  function SortKey(s: Snapshot, g: Gid, forced: bool): Key
    requires g in s.ops && g in s.exitable
    requires forced || (g.moduleId in s.modules && s.modules[g.moduleId].totalWeight != 0.0)
  {
    if forced then ForcedKeyOf(s, g) else KeyOf(s, g)
  }

  function KeyedOperators(s: Snapshot, forced: bool): (r: seq<Keyed>)
    requires Sortable(s, forced)
    ensures |r| == |s.order|
    ensures forall i :: 0 <= i < |r| ==> r[i] == Keyed(SortKey(s, s.order[i], forced), s.order[i])
  {
    seq(|s.order|, i requires 0 <= i < |s.order| => Keyed(SortKey(s, s.order[i], forced), s.order[i]))
  }

  /** All operators, each with its key, by ascending key. */
  ghost predicate InOrder(s: Snapshot, sorted: seq<Keyed>, forced: bool)
    requires Sortable(s, forced)
  {
    && (forall i :: 0 <= i < |sorted| ==>
          sorted[i].gid in s.ops && sorted[i].key == SortKey(s, sorted[i].gid, forced))
    && (forall g :: g in s.ops ==> exists i :: 0 <= i < |sorted| && sorted[i].gid == g)
    && SortedBy(sorted, KeyedLeq())
  }

  lemma {:induction false} SortedOperators(s: Snapshot, keyed: seq<Keyed>, sorted: seq<Keyed>, forced: bool)
    requires Sortable(s, forced) && keyed == KeyedOperators(s, forced) && sorted == Sort(keyed, KeyedLeq())
    ensures InOrder(s, sorted, forced)
  {
    hide SortKey;
    KeyedLeqIsTotal();
    SortSorts(keyed, KeyedLeq());
    forall i | 0 <= i < |sorted|
      ensures sorted[i].gid in s.ops && sorted[i].key == SortKey(s, sorted[i].gid, forced)
    {
      assert sorted[i] in sorted;
    }
    forall g | g in s.ops ensures exists i :: 0 <= i < |sorted| && sorted[i].gid == g {
      var k :| 0 <= k < |s.order| && s.order[k] == g;
      assert keyed[k] in sorted;
    }
  }

  ghost predicate NoneCanExit(s: Snapshot, sorted: seq<Keyed>, n: nat) {
    n <= |sorted| && forall k :: 0 <= k < n ==> !CanExit(s, sorted[k].gid)
  }

  lemma {:induction false} InOrderKnown(s: Snapshot, sorted: seq<Keyed>, forced: bool, i: nat)
    requires Sortable(s, forced) && InOrder(s, sorted, forced) && i < |sorted|
    ensures sorted[i].gid in s.ops && sorted[i].gid in s.exitable
  {
  }

  /** The first operator in order that has an exitable validator has the least key of those. */
  lemma {:induction false} FirstInOrder(s: Snapshot, sorted: seq<Keyed>, forced: bool, n: nat)
    requires Sortable(s, forced) && InOrder(s, sorted, forced) && n < |sorted|
    requires NoneCanExit(s, sorted, n) && CanExit(s, sorted[n].gid)
    ensures forall h :: CanExit(s, h) ==> KeyLeq(SortKey(s, sorted[n].gid, forced), SortKey(s, h, forced))
  {
    hide SortKey;
    forall h | CanExit(s, h) ensures KeyLeq(SortKey(s, sorted[n].gid, forced), SortKey(s, h, forced)) {
      var i :| 0 <= i < |sorted| && sorted[i].gid == h;
      assert i >= n;
      if i == n {
        assert sorted[n].gid == h;
        KeyedLeqIsTotal();
        assert KeyedLeq()(sorted[n], sorted[n]);
      } else {
        assert KeyedLeq()(sorted[n], sorted[i]);
      }
    }
  }

  lemma {:induction false} FirstInOrderIsNext(s: Snapshot, sorted: seq<Keyed>, n: nat)
    requires Sortable(s, false) && InOrder(s, sorted, false) && n < |sorted|
    requires NoneCanExit(s, sorted, n) && CanExit(s, sorted[n].gid)
    ensures IsNext(s, sorted[n].gid)
  {
    hide KeyOf, InOrder, NoneCanExit;
    FirstInOrder(s, sorted, false, n);
    forall h | CanExit(s, h) ensures KeyLeq(KeyOf(s, sorted[n].gid), KeyOf(s, h)) {
      assert KeyLeq(SortKey(s, sorted[n].gid, false), SortKey(s, h, false));
    }
  }

  lemma {:induction false} FirstInOrderIsNextForced(s: Snapshot, sorted: seq<Keyed>, n: nat)
    requires Sortable(s, true) && InOrder(s, sorted, true) && n < |sorted|
    requires NoneCanExit(s, sorted, n) && CanBeForced(s, sorted[n].gid)
    ensures IsNextForced(s, sorted[n].gid)
  {
    hide ForcedKeyOf, InOrder, NoneCanExit;
    FirstInOrder(s, sorted, true, n);
    forall h | CanBeForced(s, h) ensures KeyLeq(ForcedKeyOf(s, sorted[n].gid), ForcedKeyOf(s, h)) {
      assert KeyLeq(SortKey(s, sorted[n].gid, true), SortKey(s, h, true));
    }
  }

  lemma {:induction false} NobodyCanExit(s: Snapshot, sorted: seq<Keyed>, forced: bool)
    requires Sortable(s, forced) && InOrder(s, sorted, forced) && NoneCanExit(s, sorted, |sorted|)
    ensures forall g :: !CanExit(s, g)
  {
    forall g | g in s.ops ensures s.exitable[g] == [] {
      var i :| 0 <= i < |sorted| && sorted[i].gid == g;
    }
  }

  /** Once the first operator without a forced surplus is reached, nobody is left to force out. */
  lemma {:induction false} NobodyCanBeForced(s: Snapshot, sorted: seq<Keyed>, n: nat)
    requires Sortable(s, true) && InOrder(s, sorted, true) && n < |sorted|
    requires NoneCanExit(s, sorted, n) && ForceSurplus(s, sorted[n].gid) == 0
    ensures forall g :: !CanBeForced(s, g)
  {
    forall g | CanExit(s, g) ensures ForceSurplus(s, g) <= 0 {
      var i :| 0 <= i < |sorted| && sorted[i].gid == g;
      assert i >= n;
      if i > n {
        assert KeyedLeq()(sorted[n], sorted[i]);
        assert sorted[i].key == ForcedKeyOf(s, g) && sorted[n].key == ForcedKeyOf(s, sorted[n].gid);
      }
    }
  }

  /**
     What one step of the iterator does: nothing at all, or the ejection of the operator with the least key.
     The validator that would pass the limit is ejected and counted too, but not yielded.
   */
  ghost predicate NextOutcome(s: Snapshot, balance: nat, limit: nat, t: Snapshot, balance': nat, r: NextResult)
    requires Shape(s)
  {
    match r
    case DivisionByZero => !Weighted(s) && t == s && balance' == balance
    case Yield(g, v) =>
      && Weighted(s) && IsNext(s, g) && v == s.exitable[g][0]
      && t == Ejected(s, g) && balance' == balance + GetMaxEffectiveBalance(v.state) <= limit
    case StopIteration =>
      Weighted(s) && (Exhausted(s, balance, t, balance') || LimitHit(s, balance, limit, t, balance'))
  }

  ghost predicate Exhausted(s: Snapshot, balance: nat, t: Snapshot, balance': nat) {
    t == s && balance' == balance && forall g :: !CanExit(s, g)
  }

  ghost predicate LimitHit(s: Snapshot, balance: nat, limit: nat, t: Snapshot, balance': nat)
    requires Shape(s) && Weighted(s)
  {
    exists g :: IsNext(s, g) && t == Ejected(s, g)
      && balance' == balance + GetMaxEffectiveBalance(s.exitable[g][0].state) > limit
  }

  /** The same for the remaining forced exits: only operators above their forced target are touched. */
  ghost predicate ForcedOutcome(s: Snapshot, balance: nat, limit: nat, t: Snapshot, balance': nat, r: NextResult)
    requires Shape(s)
  {
    match r
    case DivisionByZero => false
    case Yield(g, v) =>
      && IsNextForced(s, g) && v == s.exitable[g][0]
      && t == Ejected(s, g) && balance' == balance + GetMaxEffectiveBalance(v.state) <= limit
    case StopIteration => ForcedDone(s, balance, t, balance') || ForcedLimitHit(s, balance, limit, t, balance')
  }

  ghost predicate ForcedDone(s: Snapshot, balance: nat, t: Snapshot, balance': nat) {
    t == s && balance' == balance && forall g :: !CanBeForced(s, g)
  }

  ghost predicate ForcedLimitHit(s: Snapshot, balance: nat, limit: nat, t: Snapshot, balance': nat)
    requires Shape(s)
  {
    exists g :: IsNextForced(s, g) && t == Ejected(s, g)
      && balance' == balance + GetMaxEffectiveBalance(s.exitable[g][0].state) > limit
  }

  /** An ejection run of forced exits in their order. */
  ghost predicate IsForcedRun(states: seq<Snapshot>, picks: seq<Gid>) {
    && IsEjectionRun(states, picks)
    && forall i :: 0 <= i < |picks| ==> Shape(states[i]) && IsNextForced(states[i], picks[i])
  }

  lemma {:induction false} YieldsExtendForced(states: seq<Snapshot>, ejections: seq<Ejection>, g: Gid, v: LidoValidator)
    requires YieldsOf(states, ejections) && IsForcedRun(states, Picks(ejections))
    requires Shape(states[|ejections|]) && IsNextForced(states[|ejections|], g)
    requires v == states[|ejections|].exitable[g][0]
    ensures var more, longer := states + [Ejected(states[|ejections|], g)], ejections + [Ejection(g, v)];
      YieldsOf(more, longer) && IsForcedRun(more, Picks(longer))
  {
    hide Ejected, ForcedKeyOf;
    YieldsExtend(states, ejections, g, v);
    var more, longer := states + [Ejected(states[|ejections|], g)], ejections + [Ejection(g, v)];
    forall i | 0 <= i < |longer| ensures Shape(more[i]) && IsNextForced(more[i], Picks(longer)[i]) {
      if i < |ejections| { assert Picks(longer)[i] == Picks(ejections)[i]; }
    }
  }

  /** Before anything is ejected. */
  lemma {:induction false} EmptyRun(s: Snapshot)
    ensures YieldsOf([s], []) && IsForcedRun([s], Picks([])) && IsIteratorRun([s], Picks([]))
  {
  }

  lemma {:induction false} EjectedRemaining(s: Snapshot, g: Gid)
    requires Shape(s) && Distinct(s.order) && IsNextForced(s, g)
    ensures Remaining(s.order, Ejected(s, g).exitable) == Remaining(s.order, s.exitable) - 1
  {
    RemainingDrops(s.order, s.exitable, g);
  }

  class ValidatorExitIterator {
    var maxCurrentExitBalance: nat
    const exitLimit: nat
    var totalLidoPredictableBalance: int
    var moduleStats: map<ModuleId, ModuleStats>
    var operatorStats: map<Gid, OperatorStats>
    var exitableValidators: map<Gid, seq<LidoValidator>>
    var order: seq<Gid>
    const cmV1: ModuleId
    const cmV2: ModuleId

    function State(): Snapshot
      reads this
    {
      Snapshot(order, cmV1, cmV2, moduleStats, operatorStats, exitableValidators, totalLidoPredictableBalance)
    }

    /** What every ejection needs and keeps. */
    ghost predicate Valid()
      reads this
    {
      Shape(State()) && Distinct(order) && LinksOk(State())
    }

    constructor (exitLimit: nat, cmV1: ModuleId, cmV2: ModuleId)
      ensures this.exitLimit == exitLimit && this.cmV1 == cmV1 && this.cmV2 == cmV2
      ensures maxCurrentExitBalance == 0 && State() == Snapshot([], cmV1, cmV2, map[], map[], map[], 0)
    {
      this.exitLimit, this.cmV1, this.cmV2 := exitLimit, cmV1, cmV2;
      maxCurrentExitBalance, totalLidoPredictableBalance := 0, 0;
      moduleStats, operatorStats, exitableValidators, order := map[], map[], map[], [];
    }

    method PrepareModuleStats(modules: seq<StakingModule>)
      requires moduleStats == map[]
      requires forall i, j :: 0 <= i < j < |modules| ==> modules[i].id != modules[j].id
      modifies this`moduleStats
      ensures forall m :: m in moduleStats ==> exists i :: 0 <= i < |modules| && modules[i].id == m
      ensures forall i :: 0 <= i < |modules| ==>
        modules[i].id in moduleStats
        && moduleStats[modules[i].id] == ModuleStats(modules[i].priorityExitShareThreshold, 0, 0.0, 0.0)
    {
      for i := 0 to |modules|
        invariant forall m :: m in moduleStats ==> exists k :: 0 <= k < i && modules[k].id == m
        invariant forall k :: 0 <= k < i ==>
          modules[k].id in moduleStats
          && moduleStats[modules[k].id] == ModuleStats(modules[k].priorityExitShareThreshold, 0, 0.0, 0.0)
      {
        moduleStats := moduleStats[modules[i].id := ModuleStats(modules[i].priorityExitShareThreshold, 0, 0.0, 0.0)];
      }
    }

    method PrepareNodeOperatorStats(operators: seq<NodeOperator>)
      requires operatorStats == map[] && order == []
      requires forall i, j :: 0 <= i < j < |operators| ==> operators[i].gid != operators[j].gid
      modifies this`operatorStats, this`order
      ensures order == seq(|operators|, i requires 0 <= i < |operators| => operators[i].gid) && Distinct(order)
      ensures forall g :: g in order <==> g in operatorStats
      ensures forall i :: 0 <= i < |operators| ==>
        operators[i].gid in operatorStats && operatorStats[operators[i].gid] == NewOperatorStats(operators[i])
      ensures forall i :: 0 <= i < |operators| ==> HasTargets(operatorStats[operators[i].gid], operators[i])
    {
      for i := 0 to |operators|
        invariant |order| == i && forall k :: 0 <= k < i ==> order[k] == operators[k].gid
        invariant forall g :: g in order <==> g in operatorStats
        invariant forall k :: 0 <= k < i ==>
          operators[k].gid in operatorStats && operatorStats[operators[k].gid] == NewOperatorStats(operators[k])
      {
        operatorStats := operatorStats[operators[i].gid := NewOperatorStats(operators[i])];
        order := order + [operators[i].gid];
      }
      DistinctByIndex(order);
    }

    /** Keeps the exitable validators of every operator, sorted by index. */
    method PrepareValidatorStats(validators: map<Gid, seq<LidoValidator>>, requested: map<Gid, set<nat>>)
      requires exitableValidators == map[] && Distinct(order)
      requires forall g :: g in order ==> g in validators && g in requested
      modifies this`exitableValidators
      ensures forall g :: g in order <==> g in exitableValidators
      ensures forall g :: g in order ==> AreExitable(exitableValidators[g], validators[g], requested[g])
    {
      hide AreExitable, Distinct;
      for i := 0 to |order|
        invariant forall g :: g in order[..i] <==> g in exitableValidators
        invariant forall g :: g in order[..i] ==> AreExitable(exitableValidators[g], validators[g], requested[g])
      {
        var gid := order[i];
        var exitable := Exitable(validators[gid], requested[gid]);
        SortedAreExitable(validators[gid], requested[gid]);
        exitableValidators := exitableValidators[gid := Sort(exitable, IndexLeq())];
      }
    }

    method Credit(gid: Gid, count: int, balance: int)
      requires gid in operatorStats && gid.moduleId in moduleStats
      modifies this`totalLidoPredictableBalance, this`moduleStats, this`operatorStats
      ensures State() == Credited(old(State()), gid, count, balance)
    {
      totalLidoPredictableBalance := totalLidoPredictableBalance + balance;
      var m := moduleStats[gid.moduleId];
      moduleStats := moduleStats[gid.moduleId := m.(predictableBalance := m.predictableBalance + balance,
                                             totalStake := m.totalStake + balance as real)];
      var o := operatorStats[gid];
      operatorStats := operatorStats[gid := o.(predictableValidators := o.predictableValidators + count,
                                               predictableBalance := o.predictableBalance + balance,
                                               totalStake := o.totalStake + balance as real)];
    }

    /** Adds up the exitable validators of one operator. */
    method CountValidators(gid: Gid)
      requires gid in operatorStats && gid.moduleId in moduleStats && gid in exitableValidators
      modifies this`totalLidoPredictableBalance, this`moduleStats, this`operatorStats
      ensures State() == Credited(old(State()), gid,
        |old(exitableValidators)[gid]|, InboundBalances(old(exitableValidators)[gid]))
    {
      ghost var s := State();
      var validators := exitableValidators[gid];
      Credit(gid, |validators|, 0);
      for i := 0 to |validators|
        invariant State() == Credited(s, gid, |validators|, InboundBalances(validators[..i]))
      {
        var balance := PredictableInboundBalance(validators[i]);
        Credit(gid, 0, balance);
        CreditedComposes(s, gid, |validators|, InboundBalances(validators[..i]), 0, balance);
        InboundBalancesStep(validators, i);
      }
      assert validators[..|validators|] == validators;
    }

    method CalculateCurrentClBalance()
      requires forall g :: g in order ==> g in operatorStats && g.moduleId in moduleStats && g in exitableValidators
      modifies this`totalLidoPredictableBalance, this`moduleStats, this`operatorStats
      ensures State() == WithExitable(old(State()), |order|)
    {
      hide Credited, InboundBalances;
      ghost var s := State();
      for i := 0 to |order|
        invariant State() == WithExitable(s, i)
      {
        CountValidators(order[i]);
      }
    }

    method CalculatePendingValidatorClBalance(pending: seq<PendingValidator>) returns (error: Option<IteratorError>)
      requires forall g :: g in operatorStats ==> g.moduleId in moduleStats
      modifies this`totalLidoPredictableBalance, this`moduleStats, this`operatorStats
      ensures error.None? <==> forall i :: 0 <= i < |pending| ==> pending[i].gid in old(operatorStats)
      ensures error.Some? ==> error == Some(UnknownPendingOperator)
      ensures error.None? ==> State() == WithPending(old(State()), pending, |pending|)
    {
      hide Credited, PendingAmount, WithPending;
      ghost var s := State();
      assert State() == WithPending(s, pending, 0) by { NonePending(s, pending); }
      for i := 0 to |pending|
        invariant forall k :: 0 <= k < i ==> pending[k].gid in s.ops
        invariant State() == WithPending(s, pending, i)
      {
        if pending[i].gid !in operatorStats {
          return Some(UnknownPendingOperator);
        }
        OneMorePending(s, pending, i);
        Credit(pending[i].gid, 1, PendingAmount(pending[i]));
      }
      return None;
    }

    /** Sets the weights of the CMv2 operators; `toUpdateCount` tells how many are stale in the contract. */
    method SetupWeights(weights: map<OperatorId, nat>, toUpdateCount: nat) returns (error: Option<IteratorError>)
      requires forall g :: g in order <==> g in operatorStats
      requires forall g :: g in order && g.moduleId == cmV2 ==> g.operatorId in weights
      modifies this`operatorStats
      ensures error == if toUpdateCount != 0 then Some(WeightsNotUpdated) else None
      ensures error.Some? ==> operatorStats == old(operatorStats)
      ensures error.None? ==>
        operatorStats == (map g | g in old(operatorStats) :: Reweighted(old(operatorStats)[g], g, cmV2, weights))
      ensures error.None? ==> forall g :: g in old(operatorStats) ==>
        operatorStats[g] == if g.moduleId == cmV2 then old(operatorStats)[g].(weight := weights[g.operatorId] as real)
                            else old(operatorStats)[g]
    {
      if toUpdateCount != 0 {
        return Some(WeightsNotUpdated);
      }
      for i := 0 to |order|
        invariant operatorStats == map g | g in old(operatorStats) ::
          if g in order[..i] then Reweighted(old(operatorStats)[g], g, cmV2, weights) else old(operatorStats)[g]
      {
        var gid := order[i];
        assert order[..i + 1] == order[..i] + [gid];
        if gid.moduleId == cmV2 {
          operatorStats := operatorStats[gid := operatorStats[gid].(weight := weights[gid.operatorId] as real)];
        }
      }
      assert order[..|order|] == order;
      return None;
    }

    /** Links the external operators to the group, in order, and stops at the first that cannot be linked. */
    method LinkExternals(group: OperatorGroup) returns (error: Option<GroupError>, balance: int)
      modifies this`operatorStats
      ensures error == FirstMemberError(old(operatorStats), group.externals, |group.externals|, cmV1)
      ensures error.None? ==> balance as real == ExternalBalance(old(operatorStats), group)
      ensures error.None? ==> operatorStats == LinkedToExternals(old(operatorStats), group, |group.externals|)
    {
      ghost var ops, n := operatorStats, |group.externals|;
      balance := 0;
      for i := 0 to |group.externals|
        invariant FirstMemberError(ops, group.externals, i, cmV1).None?
        invariant operatorStats == LinkedToExternals(ops, group, i)
        invariant balance as real == SumTo(group.externals, i, Balances(ops))
      {
        var gid := group.externals[i];
        if gid.moduleId != cmV1 {
          FirstMemberErrorStays(ops, group.externals, i, n, cmV1);
          return Some(NodeOperatorExpectedToBeInCMv1), 0;
        }
        if gid !in operatorStats {
          FirstMemberErrorStays(ops, group.externals, i, n, cmV1);
          return Some(UnknownOperator), 0;
        }
        if operatorStats[gid].internalGroup.Some? || operatorStats[gid].externalGroup.Some? {
          FirstMemberErrorStays(ops, group.externals, i, n, cmV1);
          return Some(NodeOperatorAlreadyGrouped), 0;
        }
        assert group.externals[..i + 1] == group.externals[..i] + [gid];
        operatorStats := operatorStats[gid := operatorStats[gid].(externalGroup := Some(group))];
        balance := balance + operatorStats[gid].predictableBalance;
      }
      return None, balance;
    }

    /** The same for the sub operators, whose weights are added up as well. */
    method LinkInternals(group: OperatorGroup) returns (error: Option<GroupError>, balance: int, weight: real)
      modifies this`operatorStats
      ensures error == FirstMemberError(old(operatorStats), group.Internals(cmV2), |group.subs|, cmV2)
      ensures error.None? ==> balance as real == InternalBalance(old(operatorStats), group, cmV2)
      ensures error.None? ==> weight == InternalWeight(old(operatorStats), group, cmV2)
      ensures error.None? ==> operatorStats == LinkedToInternals(old(operatorStats), group, cmV2, |group.subs|)
    {
      ghost var ops, n := operatorStats, |group.subs|;
      ghost var internals := group.Internals(cmV2);
      balance, weight := 0, 0.0;
      for i := 0 to |group.subs|
        invariant FirstMemberError(ops, internals, i, cmV2).None?
        invariant operatorStats == LinkedToInternals(ops, group, cmV2, i)
        invariant balance as real == SumTo(internals, i, Balances(ops))
        invariant weight == SumTo(internals, i, Weights(ops))
      {
        var gid := Gid(cmV2, group.subs[i]);
        if gid !in operatorStats {
          FirstMemberErrorStays(ops, internals, i, n, cmV2);
          return Some(UnknownOperator), 0, 0.0;
        }
        if operatorStats[gid].internalGroup.Some? || operatorStats[gid].externalGroup.Some? {
          FirstMemberErrorStays(ops, internals, i, n, cmV2);
          return Some(NodeOperatorAlreadyGrouped), 0, 0.0;
        }
        assert internals[..i + 1] == internals[..i] + [gid];
        operatorStats := operatorStats[gid := operatorStats[gid].(internalGroup := Some(group))];
        balance := balance + operatorStats[gid].predictableBalance;
        weight := weight + operatorStats[gid].weight;
      }
      return None, balance, weight;
    }

    /** Adds to every sub operator its share, by weight, of `balance`. */
    method ShareWithInternals(group: OperatorGroup, balance: int, total: real)
      requires total != 0.0 && Distinct(group.Internals(cmV2))
      requires forall g :: g in group.Internals(cmV2) ==> g in operatorStats
      modifies this`operatorStats
      ensures operatorStats == SharedWithInternals(old(operatorStats), group, cmV2, |group.subs|, balance as real, total)
    {
      ghost var ops, internals := operatorStats, group.Internals(cmV2);
      for i := 0 to |group.subs|
        invariant operatorStats == SharedWithInternals(ops, group, cmV2, i, balance as real, total)
      {
        var gid := Gid(cmV2, group.subs[i]);
        assert internals[i] == gid && internals[..i + 1] == internals[..i] + [gid];
        DistinctPrefix(internals, i);
        var o := operatorStats[gid];
        operatorStats := operatorStats[gid := o.(totalStake := o.totalStake + Portion(balance as real, o.weight, total))];
      }
    }

    /** Adds to every external operator an equal part of `balance`, and gives it an equal part of the weight. */
    method ShareWithExternals(group: OperatorGroup, balance: int, weight: real)
      requires group.externals != [] && Distinct(group.externals)
      requires forall g :: g in group.externals ==> g in operatorStats
      modifies this`operatorStats
      ensures operatorStats == SharedWithExternals(old(operatorStats), group, |group.externals|, balance as real, weight)
    {
      ghost var ops := operatorStats;
      var n := |group.externals|;
      for i := 0 to n
        invariant operatorStats == SharedWithExternals(ops, group, i, balance as real, weight)
      {
        var gid := group.externals[i];
        assert group.externals[..i + 1] == group.externals[..i] + [gid];
        DistinctPrefix(group.externals, i);
        var o := operatorStats[gid];
        operatorStats := operatorStats[gid := o.(totalStake := o.totalStake + EqualPart(balance as real, n),
                                                 weight := EqualPart(weight, n))];
      }
    }

    method ProcessGroup(group: OperatorGroup) returns (error: Option<GroupError>)
      requires cmV1 in moduleStats && cmV2 in moduleStats && cmV1 != cmV2
      modifies this`moduleStats, this`operatorStats
      ensures error == FirstGroupError(old(State()), group)
      ensures error.None? ==> State() == WithGroup(old(State()), group)
    {
      hide FirstMemberError, Sum, LinkedToExternals, LinkedToInternals, SharedWithInternals, SharedWithExternals;
      ghost var s := State();
      var externalError, externalBalance := LinkExternals(group);
      if externalError.Some? { return externalError; }
      ghost var ops1 := operatorStats;
      LinkedToExternalsFrame(s, group);
      var internalError, internalBalance, internalWeight := LinkInternals(group);
      if internalError.Some? { return internalError; }
      ghost var ops2 := operatorStats;
      if !group.HasConnection() {
        WithGroupByStepsUnconnected(s, group, ops1, ops2);
        return None;
      }
      if internalWeight == 0.0 {
        return Some(ZeroWeight);
      }
      NoGroupErrorIffFits(s, group);
      ShareWithInternals(group, externalBalance, internalWeight);
      ghost var ops3 := operatorStats;
      ShareWithExternals(group, internalBalance, internalWeight);
      WithGroupBySteps(s, group, ops1, ops2, ops3, operatorStats);
      var m1 := moduleStats[cmV1];
      moduleStats := moduleStats[cmV1 := m1.(totalStake := m1.totalStake + internalBalance as real)];
      var m2 := moduleStats[cmV2];
      moduleStats := moduleStats[cmV2 := m2.(totalStake := m2.totalStake + externalBalance as real)];
      return None;
    }

    method SetupMetaConnections(groups: seq<OperatorGroup>) returns (error: Option<GroupError>)
      requires cmV1 in moduleStats && cmV2 in moduleStats && cmV1 != cmV2
      modifies this`moduleStats, this`operatorStats
      ensures match WithGroups(old(State()), groups, |groups|)
        case Success(s) => error.None? && State() == s
        case Failure(e) => error == Some(e)
    {
      hide WithGroup, FirstGroupError;
      ghost var s := State();
      for i := 0 to |groups|
        invariant WithGroups(s, groups, i) == Success(State())
      {
        error := ProcessGroup(groups[i]);
        if error.Some? {
          WithGroupsFailureStays(s, groups, i + 1, |groups|);
          return;
        }
      }
      return None;
    }

    method CalculateSmWeights()
      requires forall g :: g in order ==> g in operatorStats && g.moduleId in moduleStats
      modifies this`moduleStats
      ensures State() == WithWeights(old(State()))
    {
      ghost var modules := moduleStats;
      for i := 0 to |order|
        invariant moduleStats == WeightsAdded(modules, order, operatorStats, i)
      {
        WeightsAddedStep(modules, order, operatorStats, i);
        var gid := order[i];
        var m := moduleStats[gid.moduleId];
        moduleStats := moduleStats[gid.moduleId := m.(totalWeight := m.totalWeight + operatorStats[gid].weight)];
      }
    }

    /**
     The whole preparation, from a start filled with the listed modules, operators and validators: it ends in the
     specified state or in its first error. On success every figure is fresh, and the exitable validators of every
     operator are exactly those that are not on exit, not requested and not consolidating, by ascending index.
     */
    method Prepare(
        modules: seq<StakingModule>, operators: seq<NodeOperator>,
        validators: map<Gid, seq<LidoValidator>>, requested: map<Gid, set<nat>>, pending: seq<PendingValidator>,
        weights: map<OperatorId, nat>, toUpdateCount: nat, groups: seq<OperatorGroup>)
      returns (error: Option<IteratorError>, ghost start: Snapshot)
      requires State() == Snapshot([], cmV1, cmV2, map[], map[], map[], 0) && maxCurrentExitBalance == 0
      requires forall i, j :: 0 <= i < j < |modules| ==> modules[i].id != modules[j].id
      requires forall i, j :: 0 <= i < j < |operators| ==> operators[i].gid != operators[j].gid
      requires forall i :: 0 <= i < |operators| ==> HasModule(modules, operators[i].gid.moduleId)
      requires HasModule(modules, cmV1) && HasModule(modules, cmV2) && cmV1 != cmV2
      requires forall i :: 0 <= i < |operators| ==> operators[i].gid in validators && operators[i].gid in requested
      requires forall i :: 0 <= i < |operators| && operators[i].gid.moduleId == cmV2 ==>
        operators[i].gid.operatorId in weights
      requires IndicesUnique(validators)
      modifies this
      ensures maxCurrentExitBalance == 0
      ensures StartOf(start, modules, operators, validators, requested)
      ensures start.cmV1 == cmV1 && start.cmV2 == cmV2 && Shape(start)
      ensures error == ErrorOf(Preparation(start, pending, weights, toUpdateCount, groups))
      ensures error.None? ==> Preparation(start, pending, weights, toUpdateCount, groups) == Success(State())
      ensures error.None? ==> Valid() && Prepared(State(), validators, requested, pending)
      ensures error.None? ==> SameThresholds(start, State())
      ensures error.None? ==> Linked(WithOperatorWeights(start, weights), State(), groups, |groups|)
    {
      hide Started, Prepared, IndicesUnique, Preparation, Linked, SameThresholds, StartOf;
      PrepareDataStructure(modules, operators, validators, requested);
      start := State();
      StartOfIsStarted(start, modules, operators, validators, requested);
      StartedIsPlain(start, validators, requested);
      StartOfHasWeights(start, modules, operators, validators, requested, weights);
      error := CalculateStats(pending, weights, toUpdateCount, groups, validators, requested);
      if error.None? {
        PreparedWhenFresh(start, State(), validators, requested, pending);
        FreshHasShape(State(), pending);
        PreparationMeans(start, pending, weights, toUpdateCount, groups);
      }
    }

    method PrepareDataStructure(
        modules: seq<StakingModule>, operators: seq<NodeOperator>,
        validators: map<Gid, seq<LidoValidator>>, requested: map<Gid, set<nat>>)
      requires State() == Snapshot([], cmV1, cmV2, map[], map[], map[], 0)
      requires forall i, j :: 0 <= i < j < |modules| ==> modules[i].id != modules[j].id
      requires forall i, j :: 0 <= i < j < |operators| ==> operators[i].gid != operators[j].gid
      requires forall i :: 0 <= i < |operators| ==> operators[i].gid in validators && operators[i].gid in requested
      modifies this`moduleStats, this`operatorStats, this`order, this`exitableValidators
      ensures StartOf(State(), modules, operators, validators, requested)
    {
      hide AreExitable, Distinct;
      PrepareModuleStats(modules);
      PrepareNodeOperatorStats(operators);
      PrepareValidatorStats(validators, requested);
    }

    /** Adds up the figures: exitable validators, deposit queue, weights and groups. */
    method CalculateStats(
        pending: seq<PendingValidator>, weights: map<OperatorId, nat>, toUpdateCount: nat, groups: seq<OperatorGroup>,
        ghost validators: map<Gid, seq<LidoValidator>>, ghost requested: map<Gid, set<nat>>)
      returns (error: Option<IteratorError>)
      requires Started(State(), validators, requested)
      requires forall g :: g in order && g.moduleId == cmV2 ==> g.operatorId in weights
      modifies this`totalLidoPredictableBalance, this`moduleStats, this`operatorStats
      ensures Shape(old(State()))
      ensures error == ErrorOf(Preparation(old(State()), pending, weights, toUpdateCount, groups))
      ensures error.None? ==> Preparation(old(State()), pending, weights, toUpdateCount, groups) == Success(State())
      ensures error.None? ==> Fresh(State(), pending) && WeightsFresh(State())
    {
      hide Distinct, LinksOk, TotalsFresh, Fresh, Ungrouped, Unweighed, WithExitable, WithPending, Finalized, AreExitable;
      ghost var s0 := State();
      StartedTotals(s0, validators, requested);
      WithExitableIsFresh(s0);
      StartedUnweighed(s0, validators, requested);
      CountingKeepsUnweighed(s0, |order|);
      CalculateCurrentClBalance();
      ghost var s1 := State();
      error := CalculatePendingValidatorClBalance(pending);
      if error.Some? { return; }
      WithPendingIsFresh(s1, pending);
      QueueKeepsUnweighed(s1, pending, |pending|);
      FreshHasShape(State(), pending);
      error := FinalizeStats(pending, weights, toUpdateCount, groups);
    }

    method FinalizeStats(
        ghost pending: seq<PendingValidator>,
        weights: map<OperatorId, nat>, toUpdateCount: nat, groups: seq<OperatorGroup>)
      returns (error: Option<IteratorError>)
      requires Fresh(State(), pending) && Ungrouped(State()) && Unweighed(State())
      requires forall g :: g in order && g.moduleId == cmV2 ==> g.operatorId in weights
      modifies this`moduleStats, this`operatorStats
      ensures Shape(old(State()))
      ensures error == ErrorOf(Finalized(old(State()), weights, toUpdateCount, groups))
      ensures error.None? ==> Finalized(old(State()), weights, toUpdateCount, groups) == Success(State())
      ensures error.None? ==> Fresh(State(), pending) && WeightsFresh(State())
    {
      hide Distinct, TotalsFresh, StakesFresh, LinksOk, OwnFiguresFresh, WithGroups, WithWeights;
      ghost var s2 := State();
      error := SetupWeights(weights, toUpdateCount);
      if error.Some? { return; }
      ReweightedIsFresh(s2, operatorStats, weights, pending);
      ghost var s3 := State();
      assert s3 == WithOperatorWeights(s2, weights);
      var groupError := SetupMetaConnections(groups);
      if groupError.Some? { return Some(InGroup(groupError.value)); }
      WithGroupsIsFresh(s3, groups, |groups|, pending);
      GroupingKeepsUnweighed(s3, groups, |groups|);
      WithWeightsKeepsFresh(State(), pending);
      WithWeightsIsWeighted(State());
      CalculateSmWeights();
    }

    // ----- Ejection -----

    method DecreaseAffectedStake(gid: Gid, exitBalance: int)
      requires Valid() && gid in operatorStats
      modifies this`moduleStats, this`operatorStats
      ensures State() == Decreased(old(State()), gid, exitBalance)
    {
      hide LinksOk, Decreased, Distinct, ExternalsDecreased, InternalsDecreased, InternalWeight;
      ghost var s := State();
      GroupOfOperator(s, gid);
      DecreaseModuleStake(gid.moduleId, exitBalance);
      var o := operatorStats[gid];
      operatorStats := operatorStats[gid := o.(totalStake := o.totalStake - exitBalance as real)];
      if o.internalGroup.Some? && o.internalGroup.value.HasConnection() {
        var group := o.internalGroup.value;
        assert group.externals[0] in group.externals;
        DecreaseModuleStake(group.externals[0].moduleId, exitBalance);
        DecreaseExternals(group, exitBalance);
        DecreasedThroughExternals(s, gid, exitBalance, group);
      } else if o.externalGroup.Some? && o.externalGroup.value.HasConnection() {
        var group := o.externalGroup.value;
        DecreaseModuleStake(cmV2, exitBalance);
        var totalWeight := SubOperatorsWeight(group);
        OwnDecreasedWeight(s.ops, gid, exitBalance, group, cmV2);
        DecreaseInternals(group, exitBalance, totalWeight);
        DecreasedThroughInternals(s, gid, exitBalance, group);
      } else {
        DecreasedAlone(s, gid, exitBalance);
      }
      DecreasedModules(s, gid, exitBalance);
    }

    method DecreaseModuleStake(m: ModuleId, balance: int)
      requires m in moduleStats
      modifies this`moduleStats
      ensures moduleStats == StakeTaken(old(moduleStats), m, balance)
    {
      moduleStats := moduleStats[m := moduleStats[m].(totalStake := moduleStats[m].totalStake - balance as real)];
    }

    /** Takes an equal part of `balance` off every external operator of the group. */
    method DecreaseExternals(group: OperatorGroup, balance: int)
      requires group.externals != [] && Distinct(group.externals)
      requires forall g :: g in group.externals ==> g in operatorStats
      modifies this`operatorStats
      ensures operatorStats == ExternalsDecreased(old(operatorStats), group, |group.externals|, balance)
    {
      ghost var ops := operatorStats;
      for i := 0 to |group.externals|
        invariant operatorStats == ExternalsDecreased(ops, group, i, balance)
      {
        var gid := group.externals[i];
        assert group.externals[..i + 1] == group.externals[..i] + [gid];
        DistinctPrefix(group.externals, i);
        var o := operatorStats[gid];
        operatorStats := operatorStats[gid :=
          o.(totalStake := o.totalStake - EqualPart(balance as real, |group.externals|))];
      }
    }

    method SubOperatorsWeight(group: OperatorGroup) returns (total: real)
      requires forall g :: g in group.Internals(cmV2) ==> g in operatorStats
      ensures total == InternalWeight(operatorStats, group, cmV2)
    {
      total := 0.0;
      for i := 0 to |group.subs|
        invariant total == SumTo(group.Internals(cmV2), i, Weights(operatorStats))
      {
        assert group.Internals(cmV2)[i] in group.Internals(cmV2);
        total := total + operatorStats[Gid(cmV2, group.subs[i])].weight;
      }
    }

    /** Takes its weight share of `balance` off every sub operator of the group. */
    method DecreaseInternals(group: OperatorGroup, balance: int, total: real)
      requires Distinct(group.Internals(cmV2)) && total != 0.0
      requires forall g :: g in group.Internals(cmV2) ==> g in operatorStats
      modifies this`operatorStats
      ensures operatorStats == InternalsDecreased(old(operatorStats), group, cmV2, |group.subs|, balance, total)
    {
      ghost var ops, internals := operatorStats, group.Internals(cmV2);
      for i := 0 to |group.subs|
        invariant operatorStats == InternalsDecreased(ops, group, cmV2, i, balance, total)
      {
        var gid := Gid(cmV2, group.subs[i]);
        assert internals[i] == gid && internals[..i + 1] == internals[..i] + [gid];
        DistinctPrefix(internals, i);
        var o := operatorStats[gid];
        operatorStats := operatorStats[gid :=
          o.(totalStake := o.totalStake - Portion(balance as real, o.weight, total))];
      }
    }

    method EjectValidator(gid: Gid) returns (v: LidoValidator)
      requires Valid() && CanExit(State(), gid)
      modifies this`totalLidoPredictableBalance, this`moduleStats, this`operatorStats, this`exitableValidators
      ensures Valid() && v == old(exitableValidators[gid][0])
      ensures State() == Ejected(old(State()), gid)
    {
      ghost var s := State();
      v := exitableValidators[gid][0];
      exitableValidators := exitableValidators[gid := exitableValidators[gid][1..]];
      var exitBalance := PredictableInboundBalance(v);
      totalLidoPredictableBalance := totalLidoPredictableBalance - exitBalance;
      var m := moduleStats[gid.moduleId];
      moduleStats := moduleStats[gid.moduleId := m.(predictableBalance := m.predictableBalance - exitBalance)];
      var o := operatorStats[gid];
      operatorStats := operatorStats[gid := o.(predictableValidators := o.predictableValidators - 1,
                                               predictableBalance := o.predictableBalance - exitBalance)];
      assert State() == Popped(s, gid);
      PoppedKeepsLinks(s, gid);
      DecreaseAffectedStake(gid, exitBalance);
      EjectedKeepsLinks(s, gid);
    }

    // ----- The iterator -----

    method Next() returns (r: NextResult)
      requires Valid()
      modifies this`totalLidoPredictableBalance, this`moduleStats, this`operatorStats, this`exitableValidators,
        this`maxCurrentExitBalance
      ensures Valid()
      ensures NextOutcome(old(State()), old(maxCurrentExitBalance), exitLimit, State(), maxCurrentExitBalance, r)
    {
      hide Ejected, KeyOf, IsNext, LinksOk, Distinct, Sort, InOrder;
      var s := State();
      if exists i :: 0 <= i < |s.order| && s.modules[s.order[i].moduleId].totalWeight == 0.0 {
        return DivisionByZero;
      }
      var keyed := KeyedOperators(s, false);
      var sorted := Sort(keyed, KeyedLeq());
      SortedOperators(s, keyed, sorted, false);
      for i := 0 to |sorted|
        invariant State() == s && Valid() && maxCurrentExitBalance == old(maxCurrentExitBalance)
        invariant NoneCanExit(s, sorted, i)
      {
        var gid := sorted[i].gid;
        InOrderKnown(s, sorted, false, i);
        if exitableValidators[gid] == [] {
          continue;
        }
        FirstInOrderIsNext(s, sorted, i);
        var v := EjectValidator(gid);
        maxCurrentExitBalance := maxCurrentExitBalance + GetMaxEffectiveBalance(v.state);
        if maxCurrentExitBalance > exitLimit {
          return StopIteration;
        }
        return Yield(gid, v);
      }
      NobodyCanExit(s, sorted, false);
      return StopIteration;
    }

    /** One round of the loop over the remaining forced validators. */
    method NextForced() returns (r: NextResult)
      requires Valid()
      modifies this`totalLidoPredictableBalance, this`moduleStats, this`operatorStats, this`exitableValidators,
        this`maxCurrentExitBalance
      ensures Valid() && order == old(order)
      ensures ForcedOutcome(old(State()), old(maxCurrentExitBalance), exitLimit, State(), maxCurrentExitBalance, r)
    {
      hide Ejected, ForcedKeyOf, IsNextForced, LinksOk, Distinct, Sort, InOrder;
      var s := State();
      var keyed := KeyedOperators(s, true);
      var sorted := Sort(keyed, KeyedLeq());
      SortedOperators(s, keyed, sorted, true);
      for i := 0 to |sorted|
        invariant State() == s && Valid() && maxCurrentExitBalance == old(maxCurrentExitBalance)
        invariant NoneCanExit(s, sorted, i)
      {
        var gid := sorted[i].gid;
        InOrderKnown(s, sorted, true, i);
        if ForceSurplus(s, gid) == 0 {
          NobodyCanBeForced(s, sorted, i);
          return StopIteration;
        }
        if exitableValidators[gid] != [] {
          FirstInOrderIsNextForced(s, sorted, i);
          var v := EjectValidator(gid);
          maxCurrentExitBalance := maxCurrentExitBalance + GetMaxEffectiveBalance(v.state);
          if maxCurrentExitBalance > exitLimit {
            return StopIteration;
          }
          return Yield(gid, v);
        }
      }
      NobodyCanExit(s, sorted, true);
      return StopIteration;
    }

    /** The validators still to be forced out, until nobody is above the forced target or the limit is hit. */
    method GetRemainingForcedValidators() returns (result: seq<Ejection>, ghost states: seq<Snapshot>)
      requires Valid()
      modifies this`totalLidoPredictableBalance, this`moduleStats, this`operatorStats, this`exitableValidators,
        this`maxCurrentExitBalance
      ensures Valid()
      ensures |states| == |result| + 1 && states[0] == old(State()) && Shape(states[|result|])
      ensures YieldsOf(states, result) && IsForcedRun(states, Picks(result))
      ensures result != [] ==> old(maxCurrentExitBalance) + ExitBalance(result) <= exitLimit
      ensures ForcedOutcome(states[|result|], old(maxCurrentExitBalance) + ExitBalance(result), exitLimit,
        State(), maxCurrentExitBalance, StopIteration)
    {
      hide Ejected, IsNextForced, LinksOk, Distinct, YieldsOf, IsForcedRun, Remaining;
      result, states := [], [State()];
      EmptyRun(State());
      while true
        invariant Valid() && |states| == |result| + 1 && states[0] == old(State()) && states[|result|] == State()
        invariant YieldsOf(states, result) && IsForcedRun(states, Picks(result))
        invariant maxCurrentExitBalance == old(maxCurrentExitBalance) + ExitBalance(result)
        invariant result != [] ==> maxCurrentExitBalance <= exitLimit
        decreases Remaining(order, exitableValidators)
      {
        ghost var s := State();
        var r := NextForced();
        if r.StopIteration? {
          return;
        }
        EjectedRemaining(s, r.gid);
        YieldsExtendForced(states, result, r.gid, r.validator);
        ExitBalanceStep(result, Ejection(r.gid, r.validator));
        states := states + [State()];
        result := result + [Ejection(r.gid, r.validator)];
      }
    }
  }
}
