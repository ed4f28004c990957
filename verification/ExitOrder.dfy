/**
 The state of the validator exit iterator as a value, what one ejection and one operator group do to it,
 and what it means for the running figures to be right.
 Python floats are `real`: rounding is not modelled.
 */
module ExitOrder {
  import opened Wrappers
  import opened Arithmetic
  import opened Sums
  import opened ValidatorState

  type ModuleId = nat
  type OperatorId = nat
  /** The global index of a node operator. */
  datatype Gid = Gid(moduleId: ModuleId, operatorId: OperatorId)

  datatype LidoValidator = LidoValidator(
    index: nat,
    state: ValidatorState,
    balance: nat,
    pendingTopups: seq<nat>,
    consolidatingAsTarget: seq<nat>,
    consolidatingAsSource: bool)

  function Total(amounts: seq<nat>): nat {
    if amounts == [] then 0 else Total(amounts[..|amounts| - 1]) + amounts[|amounts| - 1]
  }

  function PredictableFullInboundBalance(v: LidoValidator): nat {
    v.balance + Total(v.pendingTopups) + Total(v.consolidatingAsTarget)
  }

  function PredictableInboundBalance(v: LidoValidator): nat {
    Min(PredictableFullInboundBalance(v), GetMaxEffectiveBalance(v.state))
  }

  function InboundBalances(vs: seq<LidoValidator>): nat {
    if vs == [] then 0 else PredictableInboundBalance(vs[0]) + InboundBalances(vs[1..])
  }

  /** A Lido key that is only in the deposit queue: its deposits, and whether they use 0x01 credentials. */
  datatype PendingValidator = PendingValidator(gid: Gid, amounts: seq<nat>, eth1: bool)

  function PendingAmount(p: PendingValidator): nat {
    Min(Total(p.amounts), if p.eth1 then MAX_EFFECTIVE_BALANCE else MAX_EFFECTIVE_BALANCE_ELECTRA)
  }

  function PendingCount(pending: seq<PendingValidator>, g: Gid): nat {
    if pending == [] then 0
    else PendingCount(pending[..|pending| - 1], g) + (if pending[|pending| - 1].gid == g then 1 else 0)
  }

  function PendingBalance(pending: seq<PendingValidator>, g: Gid): nat {
    if pending == [] then 0
    else
      var last := pending[|pending| - 1];
      PendingBalance(pending[..|pending| - 1], g) + (if last.gid == g then PendingAmount(last) else 0)
  }

  /** An operator group of the meta registry: sub operators live in CMv2, external ones in CMv1. */
  datatype OperatorGroup = OperatorGroup(subs: seq<OperatorId>, externals: seq<Gid>) {
    predicate HasConnection() {
      |subs| > 0 && |externals| > 0
    }

    function Internals(cmV2: ModuleId): (r: seq<Gid>)
      ensures |r| == |subs|
    {
      seq(|subs|, i requires 0 <= i < |subs| => Gid(cmV2, subs[i]))
    }
  }

  datatype ModuleStats = ModuleStats(
    priorityExitShareThreshold: nat,
    predictableBalance: int,
    totalStake: real,
    totalWeight: real)

  datatype OperatorStats = OperatorStats(
    predictableValidators: int,
    predictableBalance: int,
    totalStake: real,
    internalGroup: Option<OperatorGroup>,
    externalGroup: Option<OperatorGroup>,
    weight: real,
    forceExitTo: Option<nat>,
    softExitTo: Option<nat>)
  {
    predicate Grouped() { internalGroup.Some? || externalGroup.Some? }
  }

  /** All the figures the iterator keeps. `order` is the insertion order of the operators' dictionary. */
  datatype Snapshot = Snapshot(
    order: seq<Gid>,
    cmV1: ModuleId,
    cmV2: ModuleId,
    modules: map<ModuleId, ModuleStats>,
    ops: map<Gid, OperatorStats>,
    exitable: map<Gid, seq<LidoValidator>>,
    totalBalance: int)

  function Balances(ops: map<Gid, OperatorStats>): Gid -> real {
    (g: Gid) => if g in ops then ops[g].predictableBalance as real else 0.0
  }

  function Stakes(ops: map<Gid, OperatorStats>): Gid -> real {
    (g: Gid) => if g in ops then ops[g].totalStake else 0.0
  }

  function Weights(ops: map<Gid, OperatorStats>): Gid -> real {
    (g: Gid) => if g in ops then ops[g].weight else 0.0
  }

  /** Only the operators of one module. */
  function Within(m: ModuleId, f: Gid -> real): Gid -> real {
    (g: Gid) => if g.moduleId == m then f(g) else 0.0
  }

  function ExternalBalance(ops: map<Gid, OperatorStats>, group: OperatorGroup): real {
    Sum(group.externals, Balances(ops))
  }

  function InternalBalance(ops: map<Gid, OperatorStats>, group: OperatorGroup, cmV2: ModuleId): real {
    Sum(group.Internals(cmV2), Balances(ops))
  }

  function InternalWeight(ops: map<Gid, OperatorStats>, group: OperatorGroup, cmV2: ModuleId): real {
    Sum(group.Internals(cmV2), Weights(ops))
  }

  // ----- What a fresh recomputation gives -----

  ghost predicate Shape(s: Snapshot) {
    && (forall g :: g in s.order <==> g in s.ops)
    && (forall g :: g in s.ops ==> g in s.exitable && g.moduleId in s.modules)
    && s.cmV1 in s.modules && s.cmV2 in s.modules && s.cmV1 != s.cmV2
  }

  /** The members of a group point at it, and at no other; a connected group has weight. */
  ghost predicate GroupLinked(s: Snapshot, group: OperatorGroup) {
    && Distinct(group.externals) && Distinct(group.Internals(s.cmV2))
    && (forall e :: e in group.externals ==>
          e in s.ops && e.moduleId == s.cmV1 && s.ops[e].externalGroup == Some(group) && s.ops[e].internalGroup.None?)
    && (forall i :: i in group.Internals(s.cmV2) ==>
          i in s.ops && s.ops[i].internalGroup == Some(group) && s.ops[i].externalGroup.None?)
    && (group.HasConnection() ==> InternalWeight(s.ops, group, s.cmV2) != 0.0)
  }

  ghost predicate LinksOk(s: Snapshot) {
    && (forall g :: g in s.ops && s.ops[g].internalGroup.Some? ==>
          var group := s.ops[g].internalGroup.value;
          g in group.Internals(s.cmV2) && GroupLinked(s, group))
    && (forall g :: g in s.ops && s.ops[g].externalGroup.Some? ==>
          var group := s.ops[g].externalGroup.value;
          g in group.externals && GroupLinked(s, group))
  }

  /** `amount` in proportion `weight` to `total`. */
  function Portion(amount: real, weight: real, total: real): real
    requires total != 0.0
  {
    amount * weight / total
  }

  /** One of `n` equal parts. */
  function EqualPart(amount: real, n: nat): real
    requires n != 0
  {
    amount / (n as real)
  }

  /** A CMv2 operator's share, by weight, of what the group holds in CMv1. */
  function InternalShare(s: Snapshot, g: Gid): real
    requires g in s.ops
  {
    match s.ops[g].internalGroup
    case Some(group) =>
      if group.HasConnection() && InternalWeight(s.ops, group, s.cmV2) != 0.0
      then Portion(ExternalBalance(s.ops, group), s.ops[g].weight, InternalWeight(s.ops, group, s.cmV2))
      else 0.0
    case None => 0.0
  }

  /** A CMv1 operator's equal share of what the group holds in CMv2. */
  function ExternalShare(s: Snapshot, g: Gid): real
    requires g in s.ops
  {
    match s.ops[g].externalGroup
    case Some(group) =>
      if group.HasConnection()
      then EqualPart(InternalBalance(s.ops, group, s.cmV2), |group.externals|)
      else 0.0
    case None => 0.0
  }

  function ExpectedStake(s: Snapshot, g: Gid): real
    requires g in s.ops
  {
    s.ops[g].predictableBalance as real + InternalShare(s, g) + ExternalShare(s, g)
  }

  /** What an operator holds is what is left to exit plus what is still in the deposit queue. */
  ghost predicate OwnFiguresFresh(s: Snapshot, pending: seq<PendingValidator>) {
    forall g :: g in s.ops && g in s.exitable ==>
      && s.ops[g].predictableValidators == |s.exitable[g]| + PendingCount(pending, g)
      && s.ops[g].predictableBalance == InboundBalances(s.exitable[g]) + PendingBalance(pending, g)
  }

  ghost predicate StakesFresh(s: Snapshot) {
    forall g :: g in s.ops ==> s.ops[g].totalStake == ExpectedStake(s, g)
  }

  ghost predicate TotalsFresh(s: Snapshot) {
    && (forall m :: m in s.modules ==>
          && s.modules[m].predictableBalance as real == Sum(s.order, Within(m, Balances(s.ops)))
          && s.modules[m].totalStake == Sum(s.order, Within(m, Stakes(s.ops))))
    && s.totalBalance as real == Sum(s.order, Balances(s.ops))
  }

  ghost predicate WeightsFresh(s: Snapshot) {
    forall m :: m in s.modules ==> s.modules[m].totalWeight == Sum(s.order, Within(m, Weights(s.ops)))
  }

  /** Every figure the iterator keeps is what recomputing it from the remaining validators would give. */
  ghost predicate Fresh(s: Snapshot, pending: seq<PendingValidator>) {
    && Shape(s) && Distinct(s.order) && LinksOk(s)
    && OwnFiguresFresh(s, pending) && StakesFresh(s) && TotalsFresh(s)
  }

  // ----- One ejection -----

  /** What the exit of `balance` from `g` takes off the stake of `h` through their group. */
  function LinkedDecrease(s: Snapshot, g: Gid, balance: int, h: Gid): real
    requires g in s.ops
  {
    var internal := s.ops[g].internalGroup;
    var external := s.ops[g].externalGroup;
    (if internal.Some? && internal.value.HasConnection() && h in internal.value.externals
     then EqualPart(balance as real, |internal.value.externals|) else 0.0)
    +
    (if external.Some? && external.value.HasConnection() && h in external.value.Internals(s.cmV2)
        && h in s.ops && InternalWeight(s.ops, external.value, s.cmV2) != 0.0
     then Portion(balance as real, s.ops[h].weight, InternalWeight(s.ops, external.value, s.cmV2)) else 0.0)
  }

  function LinkedModuleDecrease(s: Snapshot, g: Gid, balance: int, m: ModuleId): real
    requires g in s.ops
  {
    var internal := s.ops[g].internalGroup;
    var external := s.ops[g].externalGroup;
    (if internal.Some? && internal.value.HasConnection() && m == s.cmV1 then balance as real else 0.0)
    + (if external.Some? && external.value.HasConnection() && m == s.cmV2 then balance as real else 0.0)
  }

  function Decreased(s: Snapshot, g: Gid, balance: int): Snapshot
    requires g in s.ops
  {
    s.(modules := map m | m in s.modules ::
         s.modules[m].(totalStake := s.modules[m].totalStake
           - (if m == g.moduleId then balance as real else 0.0) - LinkedModuleDecrease(s, g, balance, m)),
       ops := map h | h in s.ops ::
         s.ops[h].(totalStake := s.ops[h].totalStake
           - (if h == g then balance as real else 0.0) - LinkedDecrease(s, g, balance, h)))
  }

  /** Adds `count` validators and `balance` to an operator, its module and the total. */
  function Credited(s: Snapshot, g: Gid, count: int, balance: int): Snapshot
    requires g in s.ops && g.moduleId in s.modules
  {
    var m := s.modules[g.moduleId];
    var o := s.ops[g];
    s.(totalBalance := s.totalBalance + balance,
       modules := s.modules[g.moduleId := m.(predictableBalance := m.predictableBalance + balance,
                                      totalStake := m.totalStake + balance as real)],
       ops := s.ops[g := o.(predictableValidators := o.predictableValidators + count,
                            predictableBalance := o.predictableBalance + balance,
                            totalStake := o.totalStake + balance as real)])
  }

  /** The own figures of `g` lose its first exitable validator; stakes are not touched yet. */
  function Popped(s: Snapshot, g: Gid): Snapshot
    requires g in s.ops && g.moduleId in s.modules && g in s.exitable && s.exitable[g] != []
  {
    var balance := PredictableInboundBalance(s.exitable[g][0]);
    var m := s.modules[g.moduleId];
    var o := s.ops[g];
    s.(totalBalance := s.totalBalance - balance,
       exitable := s.exitable[g := s.exitable[g][1..]],
       modules := s.modules[g.moduleId := m.(predictableBalance := m.predictableBalance - balance)],
       ops := s.ops[g := o.(predictableValidators := o.predictableValidators - 1,
                            predictableBalance := o.predictableBalance - balance)])
  }

  function Ejected(s: Snapshot, g: Gid): Snapshot
    requires g in s.ops && g.moduleId in s.modules && g in s.exitable && s.exitable[g] != []
  {
    Decreased(Popped(s, g), g, PredictableInboundBalance(s.exitable[g][0]))
  }

  // ----- Registering one group -----

  datatype GroupError = NodeOperatorExpectedToBeInCMv1 | NodeOperatorAlreadyGrouped | UnknownOperator | ZeroWeight

  /** The error of checking `gids[n]` after the members before it have been put in the group. */
  function MemberError(ops: map<Gid, OperatorStats>, gids: seq<Gid>, n: nat, module_: ModuleId): Option<GroupError>
    requires n < |gids|
  {
    if gids[n].moduleId != module_ then Some(NodeOperatorExpectedToBeInCMv1)
    else if gids[n] !in ops then Some(UnknownOperator)
    else if ops[gids[n]].Grouped() || gids[n] in gids[..n] then Some(NodeOperatorAlreadyGrouped)
    else None
  }

  /** The first error met while the first `n` members are put in the group. */
  function FirstMemberError(ops: map<Gid, OperatorStats>, gids: seq<Gid>, n: nat, module_: ModuleId)
    : Option<GroupError>
    requires n <= |gids|
  {
    if n == 0 then None
    else
      var earlier := FirstMemberError(ops, gids, n - 1, module_);
      if earlier.Some? then earlier else MemberError(ops, gids, n - 1, module_)
  }

  function FirstGroupError(s: Snapshot, group: OperatorGroup): Option<GroupError> {
    var internals := group.Internals(s.cmV2);
    var external := FirstMemberError(s.ops, group.externals, |group.externals|, s.cmV1);
    if external.Some? then external
    else
      var internal := FirstMemberError(s.ops, internals, |internals|, s.cmV2);
      if internal.Some? then internal
      else if group.HasConnection() && InternalWeight(s.ops, group, s.cmV2) == 0.0 then Some(ZeroWeight)
      else None
  }

  function GroupedOperator(s: Snapshot, group: OperatorGroup, g: Gid): OperatorStats
    requires g in s.ops
    requires group.HasConnection() ==> InternalWeight(s.ops, group, s.cmV2) != 0.0
  {
    var o := s.ops[g];
    var n := |group.externals|;
    if g in group.externals then
      var linked := o.(externalGroup := Some(group));
      if group.HasConnection()
      then linked.(totalStake := o.totalStake + EqualPart(InternalBalance(s.ops, group, s.cmV2), n),
                   weight := EqualPart(InternalWeight(s.ops, group, s.cmV2), n))
      else linked
    else if g in group.Internals(s.cmV2) then
      var linked := o.(internalGroup := Some(group));
      if group.HasConnection()
      then linked.(totalStake := o.totalStake
                     + Portion(ExternalBalance(s.ops, group), o.weight, InternalWeight(s.ops, group, s.cmV2)))
      else linked
    else o
  }

  function WithGroup(s: Snapshot, group: OperatorGroup): Snapshot
    requires s.cmV1 in s.modules && s.cmV2 in s.modules && s.cmV1 != s.cmV2
    requires FirstGroupError(s, group).None?
  {
    var ops := map g | g in s.ops :: GroupedOperator(s, group, g);
    var m1 := s.modules[s.cmV1];
    var m2 := s.modules[s.cmV2];
    s.(ops := ops,
       modules := if group.HasConnection() then
           s.modules[s.cmV1 := m1.(totalStake := m1.totalStake + InternalBalance(s.ops, group, s.cmV2))]
                    [s.cmV2 := m2.(totalStake := m2.totalStake + ExternalBalance(s.ops, group))]
         else s.modules)
  }
}
