/** What the steps of preparing the iterator compute, and that together they make every figure fresh. */
module ExitOrderSteps {
  import opened Wrappers
  import opened Arithmetic
  import opened Sums
  import opened Sorting
  import opened ValidatorState
  import opened ExitOrder
  import opened ExitOrderLemmas
  import opened ExitGroupLemmas
  import opened ExitSelection

  datatype LimitMode = Disabled | Soft | Force

  datatype StakingModule = StakingModule(id: ModuleId, priorityExitShareThreshold: nat)

  datatype NodeOperator = NodeOperator(gid: Gid, limitMode: LimitMode, targetValidatorsCount: nat)

  datatype IteratorError = WeightsNotUpdated | UnknownPendingOperator | InGroup(error: GroupError)

  // ----- Starting figures -----

  function NewOperatorStats(o: NodeOperator): OperatorStats {
    OperatorStats(0, 0, 0.0, None, None, 10.0 * TOTAL_BASIS_POINTS as real,
      if o.limitMode.Force? then Some(o.targetValidatorsCount) else None,
      if o.limitMode.Soft? then Some(o.targetValidatorsCount) else None)
  }

  /** The target applies as a forced or as a soft one, by the mode, and the weight is that of an operator without one. */
  predicate HasTargets(o: OperatorStats, listed: NodeOperator) {
    && (listed.limitMode.Force? ==> o.forceExitTo == Some(listed.targetValidatorsCount) && o.softExitTo.None?)
    && (listed.limitMode.Soft? ==> o.softExitTo == Some(listed.targetValidatorsCount) && o.forceExitTo.None?)
    && (listed.limitMode.Disabled? ==> o.forceExitTo.None? && o.softExitTo.None?)
    && o.predictableValidators == 0 && o.predictableBalance == 0 && o.totalStake == 0.0 && !o.Grouped()
    && o.weight == 100000.0
  }

  predicate IsExitable(v: LidoValidator, requested: set<nat>) {
    !IsOnExit(v.state) && v.index !in requested && !v.consolidatingAsSource
  }

  function Exitable(vs: seq<LidoValidator>, requested: set<nat>): (r: seq<LidoValidator>)
    ensures forall v :: v in r <==> v in vs && IsExitable(v, requested)
  {
    if vs == [] then []
    else
      var rest := Exitable(vs[1..], requested);
      assert vs == [vs[0]] + vs[1..];
      if IsExitable(vs[0], requested) then [vs[0]] + rest else rest
  }

  function IndexLeq(): (LidoValidator, LidoValidator) -> bool {
    (a: LidoValidator, b: LidoValidator) => a.index <= b.index
  }

  /** The exitable validators of an operator, by index. */
  ghost predicate AreExitable(list: seq<LidoValidator>, vs: seq<LidoValidator>, requested: set<nat>) {
    SortedBy(list, IndexLeq()) && multiset(list) == multiset(Exitable(vs, requested))
  }

  lemma {:induction false} SortedAreExitable(vs: seq<LidoValidator>, requested: set<nat>)
    ensures AreExitable(Sort(Exitable(vs, requested), IndexLeq()), vs, requested)
  {
    SortSorts(Exitable(vs, requested), IndexLeq());
  }

  /** An operator has `count` validators and `balance`, all its own, and is in no group. */
  predicate Counted(o: OperatorStats, count: int, balance: int) {
    o.predictableValidators == count && o.predictableBalance == balance && o.totalStake == balance as real && !o.Grouped()
  }

  ghost predicate Ungrouped(s: Snapshot) {
    forall g :: g in s.ops ==> !s.ops[g].Grouped()
  }

  lemma {:induction false} InboundBalancesStep(vs: seq<LidoValidator>, i: nat)
    requires i < |vs|
    ensures InboundBalances(vs[..i + 1]) == InboundBalances(vs[..i]) + PredictableInboundBalance(vs[i])
  {
    if i > 0 {
      InboundBalancesStep(vs[1..], i - 1);
      assert vs[..i + 1][1..] == vs[1..][..i] && vs[..i][1..] == vs[1..][..i - 1];
    }
  }

  lemma {:induction false} CreditedComposes(s: Snapshot, g: Gid, c1: int, b1: int, c2: int, b2: int)
    requires g in s.ops && g.moduleId in s.modules
    ensures Credited(Credited(s, g, c1, b1), g, c2, b2) == Credited(s, g, c1 + c2, b1 + b2)
  {
  }

  /** Without groups the figures are fresh when every operator counts just what it has. */
  lemma {:induction false} UngroupedIsFresh(s: Snapshot, pending: seq<PendingValidator>)
    requires Shape(s) && Distinct(s.order) && TotalsFresh(s)
    requires forall g :: g in s.ops ==> Counted(s.ops[g],
      |s.exitable[g]| + PendingCount(pending, g), InboundBalances(s.exitable[g]) + PendingBalance(pending, g))
    ensures Fresh(s, pending) && Ungrouped(s)
  {
  }

  /** An ungrouped operator whose figures are fresh counts just what it has. */
  lemma {:induction false} FreshIsCounted(s: Snapshot, pending: seq<PendingValidator>, g: Gid)
    requires Fresh(s, pending) && Ungrouped(s) && g in s.ops
    ensures Counted(s.ops[g],
      |s.exitable[g]| + PendingCount(pending, g), InboundBalances(s.exitable[g]) + PendingBalance(pending, g))
  {
    assert s.ops[g].totalStake == ExpectedStake(s, g);
  }

  /** No module weight has been added up yet. */
  ghost predicate Unweighed(s: Snapshot) {
    forall m :: m in s.modules ==> s.modules[m].totalWeight == 0.0
  }

  /** The figures after the validators of the first `n` operators are added up. */
  function WithExitable(s: Snapshot, n: nat): (t: Snapshot)
    requires n <= |s.order| && forall g :: g in s.order ==> g in s.ops && g.moduleId in s.modules && g in s.exitable
    ensures t.ops.Keys == s.ops.Keys && t.modules.Keys == s.modules.Keys
    ensures t.order == s.order && t.exitable == s.exitable && t.cmV1 == s.cmV1 && t.cmV2 == s.cmV2
    decreases n
  {
    if n == 0 then s
    else
      var g := s.order[n - 1];
      Credited(WithExitable(s, n - 1), g, |s.exitable[g]|, InboundBalances(s.exitable[g]))
  }

  /** The figures after the first `n` keys of the deposit queue are added up. */
  function WithPending(s: Snapshot, pending: seq<PendingValidator>, n: nat): (t: Snapshot)
    requires n <= |pending|
    requires forall i :: 0 <= i < n ==> pending[i].gid in s.ops && pending[i].gid.moduleId in s.modules
    ensures t.ops.Keys == s.ops.Keys && t.modules.Keys == s.modules.Keys
    ensures t.order == s.order && t.exitable == s.exitable && t.cmV1 == s.cmV1 && t.cmV2 == s.cmV2
    decreases n
  {
    if n == 0 then s
    else Credited(WithPending(s, pending, n - 1), pending[n - 1].gid, 1, PendingAmount(pending[n - 1]))
  }

  lemma {:induction false} NonePending(s: Snapshot, pending: seq<PendingValidator>)
    ensures WithPending(s, pending, 0) == s
  {
  }

  lemma {:induction false} OneMorePending(s: Snapshot, pending: seq<PendingValidator>, n: nat)
    requires n < |pending|
    requires forall i :: 0 <= i < n + 1 ==> pending[i].gid in s.ops && pending[i].gid.moduleId in s.modules
    ensures WithPending(s, pending, n + 1)
      == Credited(WithPending(s, pending, n), pending[n].gid, 1, PendingAmount(pending[n]))
  {
  }

  lemma {:induction false} WithExitableKeepsTotals(s: Snapshot, n: nat)
    requires Shape(s) && Distinct(s.order) && TotalsFresh(s) && n <= |s.order|
    ensures Shape(WithExitable(s, n)) && TotalsFresh(WithExitable(s, n))
    decreases n
  {
    hide TotalsFresh, Distinct, Credited;
    if n > 0 {
      WithExitableKeepsTotals(s, n - 1);
      var g := s.order[n - 1];
      CreditedKeepsTotals(WithExitable(s, n - 1), g, |s.exitable[g]|, InboundBalances(s.exitable[g]));
    }
  }

  lemma {:induction false} CreditedCounts(s: Snapshot, g: Gid, count: int, balance: int, h: Gid)
    requires g in s.ops && g.moduleId in s.modules && h in s.ops
    ensures h != g ==> Credited(s, g, count, balance).ops[h] == s.ops[h]
    ensures Counted(s.ops[g], 0, 0) ==> Counted(Credited(s, g, count, balance).ops[g], count, balance)
  {
  }

  lemma {:induction false} WithExitableCounts(s: Snapshot, n: nat, g: Gid)
    requires forall h :: h in s.order ==> h in s.ops && h.moduleId in s.modules && h in s.exitable
    requires n <= |s.order| && Distinct(s.order) && g in s.ops && g in s.exitable && Counted(s.ops[g], 0, 0)
    ensures g in s.order[..n] ==>
      Counted(WithExitable(s, n).ops[g], |s.exitable[g]|, InboundBalances(s.exitable[g]))
    ensures g !in s.order[..n] ==> WithExitable(s, n).ops[g] == s.ops[g]
    decreases n
  {
    hide InboundBalances, Distinct, Credited, Counted, WithExitable;
    ExitableStep(s, n);
    if n > 0 {
      WithExitableCounts(s, n - 1, g);
      CreditedCounts(WithExitable(s, n - 1), s.order[n - 1],
        |s.exitable[s.order[n - 1]]|, InboundBalances(s.exitable[s.order[n - 1]]), g);
      DistinctPrefix(s.order, n - 1);
      assert s.order[..n] == s.order[..n - 1] + [s.order[n - 1]];
    }
  }

  lemma {:induction false} ExitableStep(s: Snapshot, n: nat)
    requires n <= |s.order| && forall g :: g in s.order ==> g in s.ops && g.moduleId in s.modules && g in s.exitable
    ensures WithExitable(s, n) ==
      if n == 0 then s
      else Credited(WithExitable(s, n - 1), s.order[n - 1],
        |s.exitable[s.order[n - 1]]|, InboundBalances(s.exitable[s.order[n - 1]]))
  {
  }

  lemma {:induction false} WithExitableIsFresh(s: Snapshot)
    requires Shape(s) && Distinct(s.order) && TotalsFresh(s)
    requires forall g :: g in s.ops ==> Counted(s.ops[g], 0, 0)
    ensures Fresh(WithExitable(s, |s.order|), []) && Ungrouped(WithExitable(s, |s.order|))
  {
    hide TotalsFresh, Distinct, WithExitable;
    var t := WithExitable(s, |s.order|);
    WithExitableKeepsTotals(s, |s.order|);
    assert s.order[..|s.order|] == s.order;
    forall g | g in t.ops
      ensures Counted(t.ops[g], |t.exitable[g]| + PendingCount([], g),
        InboundBalances(t.exitable[g]) + PendingBalance([], g))
    {
      WithExitableCounts(s, |s.order|, g);
    }
    UngroupedIsFresh(t, []);
  }

  lemma {:induction false} PendingStep(pending: seq<PendingValidator>, n: nat, g: Gid)
    requires n < |pending|
    ensures var mine := pending[n].gid == g;
      && PendingCount(pending[..n + 1], g) == PendingCount(pending[..n], g) + (if mine then 1 else 0)
      && PendingBalance(pending[..n + 1], g) == PendingBalance(pending[..n], g)
           + (if mine then PendingAmount(pending[n]) else 0)
  {
    assert pending[..n + 1][..n] == pending[..n];
  }

  lemma {:induction false} WithPendingKeepsTotals(s: Snapshot, pending: seq<PendingValidator>, n: nat)
    requires Shape(s) && Distinct(s.order) && TotalsFresh(s) && n <= |pending|
    requires forall i :: 0 <= i < n ==> pending[i].gid in s.ops
    ensures Shape(WithPending(s, pending, n)) && TotalsFresh(WithPending(s, pending, n))
    decreases n
  {
    hide TotalsFresh, Distinct, Credited;
    if n > 0 {
      WithPendingKeepsTotals(s, pending, n - 1);
      CreditedKeepsTotals(WithPending(s, pending, n - 1), pending[n - 1].gid, 1, PendingAmount(pending[n - 1]));
    }
  }

  lemma {:induction false} CreditedAddsUp(
      s: Snapshot, g: Gid, count: int, balance: int, h: Gid, before: int, held: int)
    requires g in s.ops && g.moduleId in s.modules && h in s.ops && Counted(s.ops[h], before, held)
    ensures Counted(Credited(s, g, count, balance).ops[h],
      before + (if g == h then count else 0), held + (if g == h then balance else 0))
  {
  }

  lemma {:induction false} WithPendingCounts(
      s: Snapshot, pending: seq<PendingValidator>, n: nat, g: Gid, count: int, balance: int)
    requires n <= |pending| && g in s.ops && Counted(s.ops[g], count, balance)
    requires forall i :: 0 <= i < n ==> pending[i].gid in s.ops && pending[i].gid.moduleId in s.modules
    ensures Counted(WithPending(s, pending, n).ops[g],
      count + PendingCount(pending[..n], g), balance + PendingBalance(pending[..n], g))
    decreases n
  {
    hide Credited, Counted, PendingAmount;
    if n > 0 {
      WithPendingCounts(s, pending, n - 1, g, count, balance);
      PendingStep(pending, n - 1, g);
      CreditedAddsUp(WithPending(s, pending, n - 1), pending[n - 1].gid, 1, PendingAmount(pending[n - 1]), g,
        count + PendingCount(pending[..n - 1], g), balance + PendingBalance(pending[..n - 1], g));
    }
  }

  lemma {:induction false} WithPendingIsFresh(s: Snapshot, pending: seq<PendingValidator>)
    requires Fresh(s, []) && Ungrouped(s) && forall i :: 0 <= i < |pending| ==> pending[i].gid in s.ops
    ensures Fresh(WithPending(s, pending, |pending|), pending) && Ungrouped(WithPending(s, pending, |pending|))
  {
    hide TotalsFresh, Distinct, WithPending;
    var t := WithPending(s, pending, |pending|);
    WithPendingKeepsTotals(s, pending, |pending|);
    assert pending[..|pending|] == pending;
    forall g | g in t.ops
      ensures Counted(t.ops[g], |t.exitable[g]| + PendingCount(pending, g),
        InboundBalances(t.exitable[g]) + PendingBalance(pending, g))
    {
      FreshIsCounted(s, [], g);
      WithPendingCounts(s, pending, |pending|, g, |s.exitable[g]|, InboundBalances(s.exitable[g]));
    }
    UngroupedIsFresh(t, pending);
  }

  function Reweighted(o: OperatorStats, g: Gid, cmV2: ModuleId, weights: map<OperatorId, nat>): OperatorStats {
    if g.moduleId == cmV2 && g.operatorId in weights then o.(weight := weights[g.operatorId] as real) else o
  }

  /** The first error is final. */
  lemma {:induction false} FirstMemberErrorStays(
      ops: map<Gid, OperatorStats>, gids: seq<Gid>, i: nat, n: nat, m: ModuleId)
    requires i < n <= |gids| && FirstMemberError(ops, gids, i, m).None? && MemberError(ops, gids, i, m).Some?
    ensures FirstMemberError(ops, gids, n, m) == MemberError(ops, gids, i, m)
    decreases n
  {
    if n > i + 1 { FirstMemberErrorStays(ops, gids, i, n - 1, m); }
  }

  // ----- The steps of registering a group -----

  function LinkedToExternals(ops: map<Gid, OperatorStats>, group: OperatorGroup, n: nat)
    : (r: map<Gid, OperatorStats>)
    requires n <= |group.externals|
    ensures r.Keys == ops.Keys
  {
    map g | g in ops :: if g in group.externals[..n] then ops[g].(externalGroup := Some(group)) else ops[g]
  }

  function LinkedToInternals(ops: map<Gid, OperatorStats>, group: OperatorGroup, cmV2: ModuleId, n: nat)
    : (r: map<Gid, OperatorStats>)
    requires n <= |group.subs|
    ensures r.Keys == ops.Keys
  {
    map g | g in ops :: if g in group.Internals(cmV2)[..n] then ops[g].(internalGroup := Some(group)) else ops[g]
  }

  function SharedWithInternals(ops: map<Gid, OperatorStats>, group: OperatorGroup, cmV2: ModuleId, n: nat,
                               balance: real, total: real): (r: map<Gid, OperatorStats>)
    requires n <= |group.subs| && total != 0.0
    ensures r.Keys == ops.Keys
  {
    map g | g in ops ::
      if g in group.Internals(cmV2)[..n]
      then ops[g].(totalStake := ops[g].totalStake + Portion(balance, ops[g].weight, total)) else ops[g]
  }

  function SharedWithExternals(ops: map<Gid, OperatorStats>, group: OperatorGroup, n: nat,
                               balance: real, weight: real): map<Gid, OperatorStats>
    requires n <= |group.externals| && group.externals != []
  {
    map g | g in ops ::
      if g in group.externals[..n]
      then ops[g].(totalStake := ops[g].totalStake + EqualPart(balance, |group.externals|),
                   weight := EqualPart(weight, |group.externals|)) else ops[g]
  }

  lemma {:induction false} SameMemberErrors(
      ops: map<Gid, OperatorStats>, ops': map<Gid, OperatorStats>, gids: seq<Gid>, n: nat, m: ModuleId)
    requires n <= |gids|
    requires forall g :: g in gids ==> (g in ops <==> g in ops') && (g in ops ==> ops'[g].Grouped() == ops[g].Grouped())
    ensures FirstMemberError(ops', gids, n, m) == FirstMemberError(ops, gids, n, m)
    decreases n
  {
    if n > 0 {
      SameMemberErrors(ops, ops', gids, n - 1, m);
      assert gids[n - 1] in gids;
    }
  }

  /** Linking the external operators does not show in the sub operators. */
  lemma {:induction false} LinkedToExternalsFrame(s: Snapshot, group: OperatorGroup)
    requires s.cmV1 != s.cmV2
    requires FirstMemberError(s.ops, group.externals, |group.externals|, s.cmV1).None?
    ensures var ops := LinkedToExternals(s.ops, group, |group.externals|);
      var internals := group.Internals(s.cmV2);
      && FirstMemberError(ops, internals, |internals|, s.cmV2) == FirstMemberError(s.ops, internals, |internals|, s.cmV2)
      && InternalBalance(ops, group, s.cmV2) == InternalBalance(s.ops, group, s.cmV2)
      && InternalWeight(ops, group, s.cmV2) == InternalWeight(s.ops, group, s.cmV2)
  {
    var ops := LinkedToExternals(s.ops, group, |group.externals|);
    var internals := group.Internals(s.cmV2);
    NoMemberErrorMeansFit(s.ops, group.externals, |group.externals|, s.cmV1);
    assert group.externals[..|group.externals|] == group.externals;
    forall g | g in internals ensures g !in group.externals {
      assert g.moduleId == s.cmV2;
    }
    SameMemberErrors(s.ops, ops, internals, |internals|, s.cmV2);
    SumAgrees(internals, Balances(s.ops), Balances(ops));
    SumAgrees(internals, Weights(s.ops), Weights(ops));
  }

  lemma {:induction false} WithGroupByStepsUnconnected(
      s: Snapshot, group: OperatorGroup, ops1: map<Gid, OperatorStats>, ops2: map<Gid, OperatorStats>)
    requires s.cmV1 in s.modules && s.cmV2 in s.modules && s.cmV1 != s.cmV2
    requires FirstGroupError(s, group).None? && !group.HasConnection()
    requires ops1 == LinkedToExternals(s.ops, group, |group.externals|)
    requires ops2 == LinkedToInternals(ops1, group, s.cmV2, |group.subs|)
    ensures ops2 == WithGroup(s, group).ops
  {
    NoGroupErrorIffFits(s, group);
    assert group.externals[..|group.externals|] == group.externals;
    assert group.Internals(s.cmV2)[..|group.subs|] == group.Internals(s.cmV2);
    forall g | g in s.ops ensures ops2[g] == GroupedOperator(s, group, g) {
      assert g in group.externals ==> g.moduleId == s.cmV1;
      assert g in group.Internals(s.cmV2) ==> g.moduleId == s.cmV2;
    }
  }

  lemma {:induction false} WithGroupBySteps(
      s: Snapshot, group: OperatorGroup, ops1: map<Gid, OperatorStats>, ops2: map<Gid, OperatorStats>,
      ops3: map<Gid, OperatorStats>, ops4: map<Gid, OperatorStats>)
    requires s.cmV1 in s.modules && s.cmV2 in s.modules && s.cmV1 != s.cmV2
    requires FirstGroupError(s, group).None? && group.HasConnection()
    requires InternalWeight(s.ops, group, s.cmV2) != 0.0
    requires ops1 == LinkedToExternals(s.ops, group, |group.externals|)
    requires ops2 == LinkedToInternals(ops1, group, s.cmV2, |group.subs|)
    requires ops3 == SharedWithInternals(ops2, group, s.cmV2, |group.subs|,
      ExternalBalance(s.ops, group), InternalWeight(s.ops, group, s.cmV2))
    requires ops4 == SharedWithExternals(ops3, group, |group.externals|,
      InternalBalance(s.ops, group, s.cmV2), InternalWeight(s.ops, group, s.cmV2))
    ensures ops4 == WithGroup(s, group).ops
  {
    NoGroupErrorIffFits(s, group);
    assert group.externals[..|group.externals|] == group.externals;
    assert group.Internals(s.cmV2)[..|group.subs|] == group.Internals(s.cmV2);
    forall g | g in s.ops ensures ops4[g] == GroupedOperator(s, group, g) {
      assert g in group.externals ==> g.moduleId == s.cmV1;
      assert g in group.Internals(s.cmV2) ==> g.moduleId == s.cmV2;
    }
  }

  // ----- All groups -----

  /** The figures after the first `n` groups, or the error of the first that cannot be registered. */
  function WithGroups(s: Snapshot, groups: seq<OperatorGroup>, n: nat): (r: Result<Snapshot, GroupError>)
    requires n <= |groups| && s.cmV1 in s.modules && s.cmV2 in s.modules && s.cmV1 != s.cmV2
    ensures r.Success? ==> var t := r.value;
      t.cmV1 == s.cmV1 && t.cmV2 == s.cmV2 && t.modules.Keys == s.modules.Keys && t.exitable == s.exitable
      && t.order == s.order && t.ops.Keys == s.ops.Keys
    decreases n
  {
    if n == 0 then Success(s)
    else
      match WithGroups(s, groups, n - 1)
      case Failure(error) => Failure(error)
      case Success(t) =>
        match FirstGroupError(t, groups[n - 1])
        case Some(error) => Failure(error)
        case None => Success(WithGroup(t, groups[n - 1]))
  }

  lemma {:induction false} WithGroupsFailureStays(s: Snapshot, groups: seq<OperatorGroup>, i: nat, n: nat)
    requires i <= n <= |groups| && s.cmV1 in s.modules && s.cmV2 in s.modules && s.cmV1 != s.cmV2
    requires WithGroups(s, groups, i).Failure?
    ensures WithGroups(s, groups, n) == WithGroups(s, groups, i)
    decreases n
  {
    if i < n { WithGroupsFailureStays(s, groups, i, n - 1); }
  }

  lemma {:induction false} WithGroupsIsFresh(
      s: Snapshot, groups: seq<OperatorGroup>, n: nat, pending: seq<PendingValidator>)
    requires Fresh(s, pending) && n <= |groups| && WithGroups(s, groups, n).Success?
    ensures Fresh(WithGroups(s, groups, n).value, pending)
    decreases n
  {
    hide LinksOk, TotalsFresh, StakesFresh, OwnFiguresFresh, Distinct, WithGroup, FirstGroupError;
    if n > 0 {
      WithGroupsIsFresh(s, groups, n - 1, pending);
      WithGroupKeepsFresh(WithGroups(s, groups, n - 1).value, groups[n - 1], pending);
    }
  }

  /** Setting weights before any group is registered keeps the figures fresh. */
  lemma {:induction false} ReweightedIsFresh(
      s: Snapshot, ops: map<Gid, OperatorStats>, weights: map<OperatorId, nat>, pending: seq<PendingValidator>)
    requires Fresh(s, pending) && Ungrouped(s)
    requires ops == map g | g in s.ops :: Reweighted(s.ops[g], g, s.cmV2, weights)
    ensures Fresh(s.(ops := ops), pending) && Ungrouped(s.(ops := ops))
  {
    hide TotalsFresh, Distinct, Sum;
    var t := s.(ops := ops);
    ReweightedKeepsTotals(s, ops, weights);
    forall g | g in t.ops
      ensures Counted(t.ops[g], |t.exitable[g]| + PendingCount(pending, g),
        InboundBalances(t.exitable[g]) + PendingBalance(pending, g))
    {
      FreshIsCounted(s, pending, g);
    }
    UngroupedIsFresh(t, pending);
  }

  lemma {:induction false} ReweightedKeepsTotals(
      s: Snapshot, ops: map<Gid, OperatorStats>, weights: map<OperatorId, nat>)
    requires Shape(s) && TotalsFresh(s)
    requires ops == map g | g in s.ops :: Reweighted(s.ops[g], g, s.cmV2, weights)
    ensures Shape(s.(ops := ops)) && TotalsFresh(s.(ops := ops))
  {
    SumAgrees(s.order, Balances(s.ops), Balances(ops));
    forall m | m in s.modules
      ensures s.modules[m].predictableBalance as real == Sum(s.order, Within(m, Balances(ops)))
      ensures s.modules[m].totalStake == Sum(s.order, Within(m, Stakes(ops)))
    {
      SumAgrees(s.order, Within(m, Balances(s.ops)), Within(m, Balances(ops)));
      SumAgrees(s.order, Within(m, Stakes(s.ops)), Within(m, Stakes(ops)));
    }
  }

  /** The module weights once those of the first `n` operators are added up. */
  function WeightsAdded(
      modules: map<ModuleId, ModuleStats>, order: seq<Gid>, ops: map<Gid, OperatorStats>, n: nat)
    : map<ModuleId, ModuleStats>
    requires n <= |order|
  {
    map m | m in modules ::
      modules[m].(totalWeight := modules[m].totalWeight + SumTo(order, n, Within(m, Weights(ops))))
  }

  lemma {:induction false} WeightsAddedStep(
      modules: map<ModuleId, ModuleStats>, order: seq<Gid>, ops: map<Gid, OperatorStats>, n: nat)
    requires n < |order| && order[n] in ops && order[n].moduleId in modules
    ensures var m := order[n].moduleId;
      var before := WeightsAdded(modules, order, ops, n);
      m in before && WeightsAdded(modules, order, ops, n + 1)
        == before[m := before[m].(totalWeight := before[m].totalWeight + ops[order[n]].weight)]
  {
  }

  function WithWeights(s: Snapshot): Snapshot {
    s.(modules := WeightsAdded(s.modules, s.order, s.ops, |s.order|))
  }

  lemma {:induction false} WithWeightsKeepsLinks(s: Snapshot)
    requires LinksOk(s)
    ensures LinksOk(WithWeights(s))
  {
    forall group | GroupLinked(s, group) ensures GroupLinked(WithWeights(s), group) {
    }
  }

  lemma {:induction false} WithWeightsKeepsStakes(s: Snapshot)
    requires StakesFresh(s)
    ensures StakesFresh(WithWeights(s))
  {
    forall g | g in s.ops ensures s.ops[g].totalStake == ExpectedStake(WithWeights(s), g) {
      assert s.ops[g].totalStake == ExpectedStake(s, g);
    }
  }

  lemma {:induction false} WithWeightsKeepsFresh(s: Snapshot, pending: seq<PendingValidator>)
    requires Fresh(s, pending)
    ensures Fresh(WithWeights(s), pending)
  {
    hide Sum, Distinct, LinksOk, StakesFresh;
    WithWeightsKeepsLinks(s);
    WithWeightsKeepsStakes(s);
  }

  lemma {:induction false} WithWeightsIsWeighted(s: Snapshot)
    requires Unweighed(s)
    ensures WeightsFresh(WithWeights(s))
  {
  }

  // ----- The prepared state -----

  /** What the dictionaries hold before anything is added up. */
  ghost predicate Started(s: Snapshot, validators: map<Gid, seq<LidoValidator>>, requested: map<Gid, set<nat>>) {
    && Shape(s) && Distinct(s.order) && s.totalBalance == 0
    && (forall m :: m in s.modules ==>
          s.modules[m] == ModuleStats(s.modules[m].priorityExitShareThreshold, 0, 0.0, 0.0))
    && (forall g :: g in s.ops ==> Counted(s.ops[g], 0, 0))
    && (forall g :: g in s.exitable <==> g in s.ops)
    && (forall g :: g in s.order ==>
          g in validators && g in requested && AreExitable(s.exitable[g], validators[g], requested[g]))
  }

  lemma {:induction false} CreditedKeepsUnweighed(s: Snapshot, g: Gid, count: int, balance: int)
    requires g in s.ops && g.moduleId in s.modules && Unweighed(s)
    ensures Unweighed(Credited(s, g, count, balance))
  {
  }

  lemma {:induction false} CountingKeepsUnweighed(s: Snapshot, n: nat)
    requires Shape(s) && Unweighed(s) && n <= |s.order|
    ensures Unweighed(WithExitable(s, n))
    decreases n
  {
    hide Credited, Unweighed, InboundBalances;
    if n > 0 {
      var g := s.order[n - 1];
      CountingKeepsUnweighed(s, n - 1);
      CreditedKeepsUnweighed(WithExitable(s, n - 1), g, |s.exitable[g]|, InboundBalances(s.exitable[g]));
    }
  }

  lemma {:induction false} QueueKeepsUnweighed(s: Snapshot, pending: seq<PendingValidator>, n: nat)
    requires Shape(s) && Unweighed(s) && n <= |pending| && forall i :: 0 <= i < n ==> pending[i].gid in s.ops
    ensures Unweighed(WithPending(s, pending, n))
    decreases n
  {
    hide Credited, Unweighed, PendingAmount;
    if n > 0 {
      QueueKeepsUnweighed(s, pending, n - 1);
      CreditedKeepsUnweighed(WithPending(s, pending, n - 1), pending[n - 1].gid, 1, PendingAmount(pending[n - 1]));
    }
  }

  lemma {:induction false} GroupingKeepsUnweighed(s: Snapshot, groups: seq<OperatorGroup>, n: nat)
    requires Shape(s) && Unweighed(s) && n <= |groups| && WithGroups(s, groups, n).Success?
    ensures Unweighed(WithGroups(s, groups, n).value)
    decreases n
  {
    if n > 0 {
      GroupingKeepsUnweighed(s, groups, n - 1);
    }
  }

  lemma {:induction false} StartedUnweighed(
      s: Snapshot, validators: map<Gid, seq<LidoValidator>>, requested: map<Gid, set<nat>>)
    requires Started(s, validators, requested)
    ensures Unweighed(s)
  {
    hide Distinct, SortedBy, Exitable;
  }

  lemma {:induction false} StartedTotals(
      s: Snapshot, validators: map<Gid, seq<LidoValidator>>, requested: map<Gid, set<nat>>)
    requires Started(s, validators, requested)
    ensures TotalsFresh(s)
  {
    hide Distinct, SortedBy, Exitable;
    forall m | m in s.modules
      ensures Sum(s.order, Within(m, Balances(s.ops))) == 0.0 && Sum(s.order, Within(m, Stakes(s.ops))) == 0.0
    {
      SumOfConstant(s.order, Within(m, Balances(s.ops)), 0.0);
      SumOfConstant(s.order, Within(m, Stakes(s.ops)), 0.0);
    }
    SumOfConstant(s.order, Balances(s.ops), 0.0);
  }

  /** The chain gives every validator its own index and one operator. */
  ghost predicate IndicesUnique(validators: map<Gid, seq<LidoValidator>>) {
    forall g, h, i, j ::
      (g in validators && h in validators && 0 <= i < |validators[g]| && 0 <= j < |validators[h]|
       && validators[g][i].index == validators[h][j].index)
      ==> g == h && i == j
  }

  lemma {:induction false} ExitableOnce(vs: seq<LidoValidator>, requested: set<nat>, v: LidoValidator)
    requires forall i, j :: 0 <= i < |vs| && 0 <= j < |vs| && vs[i].index == vs[j].index ==> i == j
    ensures multiset(Exitable(vs, requested))[v] <= 1
  {
    if vs != [] {
      ExitableOnce(vs[1..], requested, v);
      if v == vs[0] {
        assert v !in vs[1..];
        assert v !in multiset(Exitable(vs[1..], requested));
      }
    }
  }

  lemma {:induction false} StartedAscending(
      s: Snapshot, validators: map<Gid, seq<LidoValidator>>, requested: map<Gid, set<nat>>, g: Gid)
    requires Started(s, validators, requested) && IndicesUnique(validators) && g in s.order
    ensures Ascending(s.exitable[g])
    ensures forall v :: v in s.exitable[g] <==> v in validators[g] && IsExitable(v, requested[g])
  {
    var vs, kept := s.exitable[g], Exitable(validators[g], requested[g]);
    forall v ensures v in vs <==> v in kept {
      assert v in multiset(vs) <==> v in multiset(kept);
    }
    forall i, j | 0 <= i < j < |vs| ensures vs[i].index < vs[j].index {
      assert IndexLeq()(vs[i], vs[j]);
      if vs[i].index == vs[j].index {
        assert vs[i] in validators[g] && vs[j] in validators[g];
        assert vs[i] == vs[j];
        ExitableOnce(validators[g], requested[g], vs[i]);
        TwiceInMultiset(vs, i, j);
      }
    }
  }

  lemma {:induction false} TwiceInMultiset<T>(xs: seq<T>, i: nat, j: nat)
    requires i < j < |xs| && xs[i] == xs[j]
    ensures multiset(xs)[xs[i]] >= 2
  {
    assert xs == xs[..j] + [xs[j]] + xs[j + 1..];
    assert xs[i] in xs[..j];
    assert multiset(xs) == multiset(xs[..j]) + multiset{xs[j]} + multiset(xs[j + 1..]);
  }

  lemma {:induction false} StartedDistinct(
      s: Snapshot, validators: map<Gid, seq<LidoValidator>>, requested: map<Gid, set<nat>>)
    requires Started(s, validators, requested) && IndicesUnique(validators)
    ensures ValidatorsDistinct(s)
  {
    forall g | g in s.exitable
      ensures Ascending(s.exitable[g]) && forall v :: v in s.exitable[g] ==> v in validators[g]
    {
      StartedAscending(s, validators, requested, g);
    }
  }

  /** What a prepared iterator promises. */
  ghost predicate Prepared(s: Snapshot, validators: map<Gid, seq<LidoValidator>>, requested: map<Gid, set<nat>>,
                           pending: seq<PendingValidator>)
  {
    && Fresh(s, pending) && WeightsFresh(s) && ValidatorsDistinct(s)
    && forall g :: g in s.order && g in s.exitable && g in validators && g in requested ==>
         forall v :: v in s.exitable[g] <==>
           (v in validators[g] && v.state.exitEpoch == 0xFFFF_FFFF_FFFF_FFFF
            && v.index !in requested[g] && !v.consolidatingAsSource)
  }

  lemma {:induction false} PreparedWhenFresh(s: Snapshot, t: Snapshot, validators: map<Gid, seq<LidoValidator>>,
      requested: map<Gid, set<nat>>, pending: seq<PendingValidator>)
    requires Started(s, validators, requested) && IndicesUnique(validators)
    requires Fresh(t, pending) && WeightsFresh(t) && t.order == s.order && t.exitable == s.exitable
    ensures Prepared(t, validators, requested, pending)
  {
    hide Fresh, WeightsFresh, Distinct, SortedBy, Exitable, IndicesUnique;
    StartedDistinct(s, validators, requested);
    forall g | g in s.order
      ensures forall v :: v in s.exitable[g] <==> v in validators[g] && IsExitable(v, requested[g])
    {
      StartedAscending(s, validators, requested, g);
    }
  }

  predicate HasModule(modules: seq<StakingModule>, m: ModuleId) {
    exists i :: 0 <= i < |modules| && modules[i].id == m
  }
}
