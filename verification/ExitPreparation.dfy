/** The preparation of the iterator as one function of its start state, and what its result means. */
module ExitPreparation {
  import opened Wrappers
  import opened Sums
  import opened ExitOrder
  import opened ExitOrderLemmas
  import opened ExitGroupLemmas
  import opened ExitSelection
  import opened ExitOrderSteps

  /** The dictionaries are filled from the listed modules, operators and validators, and nothing else. */
  ghost predicate StartOf(
      s: Snapshot, modules: seq<StakingModule>, operators: seq<NodeOperator>,
      validators: map<Gid, seq<LidoValidator>>, requested: map<Gid, set<nat>>)
  {
    && s.totalBalance == 0
    && (forall m :: m in s.modules ==> HasModule(modules, m))
    && (forall i :: 0 <= i < |modules| ==>
          modules[i].id in s.modules
          && s.modules[modules[i].id] == ModuleStats(modules[i].priorityExitShareThreshold, 0, 0.0, 0.0))
    && s.order == seq(|operators|, i requires 0 <= i < |operators| => operators[i].gid) && Distinct(s.order)
    && (forall g :: g in s.order <==> g in s.ops)
    && (forall i :: 0 <= i < |operators| ==>
          operators[i].gid in s.ops && s.ops[operators[i].gid] == NewOperatorStats(operators[i]))
    && (forall g :: g in s.order <==> g in s.exitable)
    && (forall g :: g in s.order ==>
          g in validators && g in requested && AreExitable(s.exitable[g], validators[g], requested[g]))
  }

  /** The dictionaries, once filled, make a start state. */
  lemma {:induction false} StartOfIsStarted(
      s: Snapshot, modules: seq<StakingModule>, operators: seq<NodeOperator>,
      validators: map<Gid, seq<LidoValidator>>, requested: map<Gid, set<nat>>)
    requires s.cmV1 != s.cmV2 && HasModule(modules, s.cmV1) && HasModule(modules, s.cmV2)
    requires forall i :: 0 <= i < |operators| ==> HasModule(modules, operators[i].gid.moduleId)
    requires StartOf(s, modules, operators, validators, requested)
    ensures Started(s, validators, requested)
  {
    hide Distinct, AreExitable;
    forall g | g in s.ops ensures Counted(s.ops[g], 0, 0) && g.moduleId in s.modules {
      var i :| 0 <= i < |s.order| && s.order[i] == g;
      assert operators[i].gid == g;
    }
  }

  lemma {:induction false} StartOfHasWeights(
      s: Snapshot, modules: seq<StakingModule>, operators: seq<NodeOperator>,
      validators: map<Gid, seq<LidoValidator>>, requested: map<Gid, set<nat>>, weights: map<OperatorId, nat>)
    requires StartOf(s, modules, operators, validators, requested)
    requires forall i :: 0 <= i < |operators| && operators[i].gid.moduleId == s.cmV2 ==>
      operators[i].gid.operatorId in weights
    ensures forall g :: g in s.order && g.moduleId == s.cmV2 ==> g.operatorId in weights
  {
    hide Distinct, AreExitable;
  }

  lemma {:induction false} StartedIsPlain(
      s: Snapshot, validators: map<Gid, seq<LidoValidator>>, requested: map<Gid, set<nat>>)
    requires Started(s, validators, requested)
    ensures Shape(s) && Ungrouped(s)
  {
    hide Distinct, AreExitable;
  }

  lemma {:induction false} FreshHasShape(s: Snapshot, pending: seq<PendingValidator>)
    requires Fresh(s, pending)
    ensures Shape(s) && Distinct(s.order) && LinksOk(s)
  {
  }

  function ErrorOf(r: Result<Snapshot, IteratorError>): Option<IteratorError> {
    match r
    case Success(_) => None
    case Failure(error) => Some(error)
  }

  function WithOperatorWeights(s: Snapshot, weights: map<OperatorId, nat>): Snapshot {
    s.(ops := map g | g in s.ops :: Reweighted(s.ops[g], g, s.cmV2, weights))
  }

  /** Weights, groups and module weights, on top of the counted balances. */
  ghost function Finalized(
      s: Snapshot, weights: map<OperatorId, nat>, toUpdateCount: nat, groups: seq<OperatorGroup>)
    : Result<Snapshot, IteratorError>
    requires Shape(s)
  {
    if toUpdateCount != 0 then Failure(WeightsNotUpdated)
    else
      match WithGroups(WithOperatorWeights(s, weights), groups, |groups|)
      case Failure(error) => Failure(InGroup(error))
      case Success(t) => Success(WithWeights(t))
  }

  /** The whole preparation from a start state: the prepared state, or the first error. */
  ghost function Preparation(
      s: Snapshot, pending: seq<PendingValidator>, weights: map<OperatorId, nat>, toUpdateCount: nat,
      groups: seq<OperatorGroup>): Result<Snapshot, IteratorError>
    requires Shape(s)
  {
    if exists i :: 0 <= i < |pending| && pending[i].gid !in s.ops then Failure(UnknownPendingOperator)
    else Finalized(WithPending(WithExitable(s, |s.order|), pending, |pending|), weights, toUpdateCount, groups)
  }

  // ----- What the prepared state holds -----

  /** What an operator weighs: CMv2's figure, an equal part of the sub operators' weight, or the default. */
  function ExpectedWeight(ops: map<Gid, OperatorStats>, o: OperatorStats, cmV2: ModuleId, unlinked: real): real {
    match o.externalGroup
    case Some(group) =>
      if group.HasConnection() then EqualPart(InternalWeight(ops, group, cmV2), |group.externals|) else unlinked
    case None => unlinked
  }

  /** Links, targets and weight of an operator that was `before`, once `groups` are registered. */
  ghost predicate OperatorLinked(s: Snapshot, g: Gid, before: OperatorStats, o: OperatorStats, groups: seq<OperatorGroup>) {
    && (o.externalGroup.Some? ==> g in o.externalGroup.value.externals && o.externalGroup.value in groups)
    && (o.internalGroup.Some? ==> g in o.internalGroup.value.Internals(s.cmV2) && o.internalGroup.value in groups)
    && (o.externalGroup.Some? ==> g.moduleId == s.cmV1)
    && o.forceExitTo == before.forceExitTo && o.softExitTo == before.softExitTo
    && o.weight == ExpectedWeight(s.ops, o, s.cmV2, before.weight)
  }

  /** The members of the first `n` groups point at their groups. */
  ghost predicate MembersLinked(s: Snapshot, t: Snapshot, groups: seq<OperatorGroup>, n: nat)
    requires n <= |groups|
  {
    && (forall k, g :: 0 <= k < n && g in groups[k].externals ==>
          g in t.ops && g.moduleId == s.cmV1 && t.ops[g].externalGroup == Some(groups[k]))
    && (forall k, g :: 0 <= k < n && g in groups[k].Internals(s.cmV2) ==>
          g in t.ops && g.moduleId == s.cmV2 && t.ops[g].internalGroup == Some(groups[k]))
  }

  /** `t` is `s` after the first `n` groups: links, weights and targets. */
  ghost predicate Linked(s: Snapshot, t: Snapshot, groups: seq<OperatorGroup>, n: nat)
    requires n <= |groups|
  {
    && t.ops.Keys == s.ops.Keys && t.cmV1 == s.cmV1 && t.cmV2 == s.cmV2
    && MembersLinked(s, t, groups, n)
    && forall g :: g in t.ops ==> OperatorLinked(s, g, s.ops[g], t.ops[g], groups[..n])
  }

  lemma {:induction false} NothingLinked(s: Snapshot, groups: seq<OperatorGroup>)
    requires Ungrouped(s)
    ensures Linked(s, s, groups, 0)
  {
  }

  /** The weights that groups add up are never changed by groups. */
  lemma {:induction false} SubWeightsStay(s: Snapshot, t: Snapshot, groups: seq<OperatorGroup>, n: nat, group: OperatorGroup)
    requires n <= |groups| && Linked(s, t, groups, n) && s.cmV1 != s.cmV2
    ensures InternalWeight(t.ops, group, s.cmV2) == InternalWeight(s.ops, group, s.cmV2)
  {
    hide Sum;
    SumAgrees(group.Internals(s.cmV2), Weights(t.ops), Weights(s.ops));
  }

  lemma {:induction false} MembersStayLinked(s: Snapshot, t: Snapshot, groups: seq<OperatorGroup>, n: nat)
    requires Shape(t) && t.cmV1 == s.cmV1 && t.cmV2 == s.cmV2 && n < |groups| && MembersLinked(s, t, groups, n)
    requires FirstGroupError(t, groups[n]).None? && GroupFits(t, groups[n])
    ensures MembersLinked(s, WithGroup(t, groups[n]), groups, n + 1)
  {
    hide Sum, EqualPart, Portion, FirstGroupError, InternalWeight, ExternalBalance, InternalBalance;
    var u := WithGroup(t, groups[n]);
    forall g | g in t.ops && t.ops[g].Grouped() ensures u.ops[g] == t.ops[g] {
    }
  }

  lemma {:induction false} OperatorStaysLinked(
      s: Snapshot, t: Snapshot, groups: seq<OperatorGroup>, n: nat, g: Gid)
    requires Shape(t) && t.cmV1 == s.cmV1 && t.cmV2 == s.cmV2 && n < |groups| && g in s.ops && g in t.ops
    requires OperatorLinked(s, g, s.ops[g], t.ops[g], groups[..n])
    requires FirstGroupError(t, groups[n]).None? && GroupFits(t, groups[n])
    requires InternalWeight(t.ops, groups[n], s.cmV2) == InternalWeight(s.ops, groups[n], s.cmV2)
    ensures OperatorLinked(s, g, s.ops[g], WithGroup(t, groups[n]).ops[g], groups[..n + 1])
  {
    hide Sum, EqualPart, Portion, FirstGroupError, InternalWeight, ExternalBalance, InternalBalance;
    assert groups[..n + 1] == groups[..n] + [groups[n]];
  }

  lemma {:induction false} OneMoreLinked(s: Snapshot, t: Snapshot, groups: seq<OperatorGroup>, n: nat)
    requires Shape(t) && n < |groups| && Linked(s, t, groups, n) && FirstGroupError(t, groups[n]).None?
    ensures Linked(s, WithGroup(t, groups[n]), groups, n + 1)
  {
    NoGroupErrorIffFits(t, groups[n]);
    SubWeightsStay(s, t, groups, n, groups[n]);
    MembersStayLinked(s, t, groups, n);
    hide FirstGroupError, GroupFits, OperatorLinked, MembersLinked, GroupedOperator, InternalWeight;
    forall g | g in t.ops
      ensures OperatorLinked(s, g, s.ops[g], WithGroup(t, groups[n]).ops[g], groups[..n + 1])
    {
      OperatorStaysLinked(s, t, groups, n, g);
    }
  }

  lemma {:induction false} AllLinked(s: Snapshot, groups: seq<OperatorGroup>, n: nat)
    requires Shape(s) && Ungrouped(s) && n <= |groups| && WithGroups(s, groups, n).Success?
    ensures Linked(s, WithGroups(s, groups, n).value, groups, n)
    decreases n
  {
    hide Linked, WithGroup, FirstGroupError;
    if n == 0 {
      NothingLinked(s, groups);
    } else {
      AllLinked(s, groups, n - 1);
      OneMoreLinked(s, WithGroups(s, groups, n - 1).value, groups, n - 1);
    }
  }

  /** Targets, weights, groups and thresholds are those of `s`; only balances and counts may differ. */
  ghost predicate SameSettings(s: Snapshot, t: Snapshot) {
    && t.order == s.order && t.exitable == s.exitable && t.cmV1 == s.cmV1 && t.cmV2 == s.cmV2
    && t.ops.Keys == s.ops.Keys && SameThresholds(s, t)
    && forall g :: g in t.ops ==>
         && t.ops[g].forceExitTo == s.ops[g].forceExitTo && t.ops[g].softExitTo == s.ops[g].softExitTo
         && t.ops[g].weight == s.ops[g].weight
         && t.ops[g].internalGroup == s.ops[g].internalGroup && t.ops[g].externalGroup == s.ops[g].externalGroup
  }

  ghost predicate SameThresholds(s: Snapshot, t: Snapshot) {
    && t.modules.Keys == s.modules.Keys
    && forall m :: m in t.modules ==>
         t.modules[m].priorityExitShareThreshold == s.modules[m].priorityExitShareThreshold
  }

  lemma {:induction false} ThresholdsOfItself(s: Snapshot)
    ensures SameThresholds(s, s)
  {
  }

  lemma {:induction false} CreditedKeepsSettings(s: Snapshot, t: Snapshot, g: Gid, count: int, balance: int)
    requires g in t.ops && g.moduleId in t.modules && SameSettings(s, t)
    ensures SameSettings(s, Credited(t, g, count, balance))
  {
  }

  lemma {:induction false} CountingKeepsSettings(s: Snapshot, n: nat)
    requires Shape(s) && n <= |s.order|
    ensures SameSettings(s, WithExitable(s, n))
    decreases n
  {
    hide Credited, InboundBalances, SameThresholds;
    assert SameThresholds(s, s) by { ThresholdsOfItself(s); }
    if n > 0 {
      CountingKeepsSettings(s, n - 1);
      var g := s.order[n - 1];
      CreditedKeepsSettings(s, WithExitable(s, n - 1), g, |s.exitable[g]|, InboundBalances(s.exitable[g]));
    }
  }

  lemma {:induction false} QueueKeepsSettings(s: Snapshot, t: Snapshot, pending: seq<PendingValidator>, n: nat)
    requires Shape(t) && SameSettings(s, t) && n <= |pending|
    requires forall i :: 0 <= i < n ==> pending[i].gid in t.ops
    ensures SameSettings(s, WithPending(t, pending, n))
    decreases n
  {
    hide Credited, PendingAmount, SameSettings;
    if n > 0 {
      QueueKeepsSettings(s, t, pending, n - 1);
      CreditedKeepsSettings(s, WithPending(t, pending, n - 1), pending[n - 1].gid, 1, PendingAmount(pending[n - 1]));
    }
  }

  lemma {:induction false} GroupingKeepsThresholds(s: Snapshot, groups: seq<OperatorGroup>, n: nat)
    requires Shape(s) && n <= |groups| && WithGroups(s, groups, n).Success?
    ensures SameThresholds(s, WithGroups(s, groups, n).value)
    decreases n
  {
    hide FirstGroupError;
    if n > 0 {
      GroupingKeepsThresholds(s, groups, n - 1);
    }
  }

  lemma {:induction false} OperatorIgnoresFigures(
      s: Snapshot, q: Snapshot, g: Gid, before: OperatorStats, q': OperatorStats, o: OperatorStats,
      groups: seq<OperatorGroup>)
    requires q.cmV1 == s.cmV1 && q.cmV2 == s.cmV2
    requires forall group :: InternalWeight(s.ops, group, s.cmV2) == InternalWeight(q.ops, group, s.cmV2)
    requires before.forceExitTo == q'.forceExitTo && before.softExitTo == q'.softExitTo && before.weight == q'.weight
    requires OperatorLinked(q, g, q', o, groups)
    ensures OperatorLinked(s, g, before, o, groups)
  {
    hide InternalWeight, EqualPart;
  }

  /** Links, weights and targets do not depend on what was counted. */
  lemma {:induction false} LinkedIgnoresFigures(s: Snapshot, q: Snapshot, t: Snapshot, groups: seq<OperatorGroup>)
    requires SameSettings(s, q) && Linked(q, t, groups, |groups|)
    ensures Linked(s, t, groups, |groups|)
  {
    hide Sum, EqualPart, OperatorLinked, SameThresholds;
    forall group ensures InternalWeight(s.ops, group, s.cmV2) == InternalWeight(q.ops, group, s.cmV2) {
      SumAgrees(group.Internals(s.cmV2), Weights(s.ops), Weights(q.ops));
    }
    hide InternalWeight;
    forall g | g in t.ops ensures OperatorLinked(s, g, s.ops[g], t.ops[g], groups[..|groups|]) {
      OperatorIgnoresFigures(s, q, g, s.ops[g], q.ops[g], t.ops[g], groups[..|groups|]);
    }
  }

  lemma {:induction false} ReweightingKeepsSettings(s: Snapshot, q: Snapshot, weights: map<OperatorId, nat>)
    requires SameSettings(s, q)
    ensures SameSettings(WithOperatorWeights(s, weights), WithOperatorWeights(q, weights))
  {
  }

  /** Counting the exitable validators and the deposit queue changes no setting. */
  lemma {:induction false} CountedKeepsSettings(s: Snapshot, pending: seq<PendingValidator>)
    requires Shape(s) && forall i :: 0 <= i < |pending| ==> pending[i].gid in s.ops
    ensures SameSettings(s, WithPending(WithExitable(s, |s.order|), pending, |pending|))
  {
    hide WithExitable, WithPending;
    CountingKeepsSettings(s, |s.order|);
    assert Shape(WithExitable(s, |s.order|));
    QueueKeepsSettings(s, WithExitable(s, |s.order|), pending, |pending|);
  }

  lemma {:induction false} SameSettingsSameShape(s: Snapshot, q: Snapshot, weights: map<OperatorId, nat>)
    requires Shape(s) && Ungrouped(s) && SameSettings(s, q)
    ensures Shape(q) && Shape(WithOperatorWeights(q, weights)) && Ungrouped(WithOperatorWeights(q, weights))
    ensures WithOperatorWeights(q, weights).modules == q.modules
    ensures WithOperatorWeights(q, weights).order == q.order && WithOperatorWeights(q, weights).exitable == q.exitable
  {
  }

  /**
     A prepared state has the start's order and exitable validators, the thresholds of the modules, and the targets
     of the operators. Exactly the members of the groups are linked, and every weight is the expected one.
   */
  lemma {:induction false} PreparationMeans(
      s: Snapshot, pending: seq<PendingValidator>, weights: map<OperatorId, nat>, toUpdateCount: nat,
      groups: seq<OperatorGroup>)
    requires Shape(s) && Ungrouped(s)
    requires Preparation(s, pending, weights, toUpdateCount, groups).Success?
    ensures var t := Preparation(s, pending, weights, toUpdateCount, groups).value;
      && t.order == s.order && t.exitable == s.exitable && SameThresholds(s, t)
      && Linked(WithOperatorWeights(s, weights), t, groups, |groups|)
  {
    hide WithExitable, WithPending, Linked, WithGroups, WeightsAdded, SameSettings, Ungrouped, WithOperatorWeights;
    CountedKeepsSettings(s, pending);
    var q := WithPending(WithExitable(s, |s.order|), pending, |pending|);
    SameSettingsSameShape(s, q, weights);
    var w := WithOperatorWeights(q, weights);
    AllLinked(w, groups, |groups|);
    GroupingKeepsThresholds(w, groups, |groups|);
    FinalMeans(s, q, WithGroups(w, groups, |groups|).value, groups, weights);
  }

  lemma {:induction false} SettingsHaveThresholds(s: Snapshot, q: Snapshot)
    requires SameSettings(s, q)
    ensures SameThresholds(s, q)
  {
  }

  lemma {:induction false} WeighingKeepsThresholds(s: Snapshot, q: Snapshot, t: Snapshot)
    requires SameThresholds(s, q) && SameThresholds(q, t)
    ensures SameThresholds(s, WithWeights(t))
  {
    hide Sum;
  }

  lemma {:induction false} WeighingKeepsLinks(s: Snapshot, t: Snapshot, groups: seq<OperatorGroup>)
    requires Linked(s, t, groups, |groups|)
    ensures Linked(s, WithWeights(t), groups, |groups|)
  {
    hide OperatorLinked, WeightsAdded;
  }

  lemma {:induction false} FinalMeans(
      s: Snapshot, q: Snapshot, t: Snapshot, groups: seq<OperatorGroup>, weights: map<OperatorId, nat>)
    requires SameSettings(s, q) && SameThresholds(q, t)
    requires Linked(WithOperatorWeights(q, weights), t, groups, |groups|)
    ensures SameThresholds(s, WithWeights(t))
    ensures Linked(WithOperatorWeights(s, weights), WithWeights(t), groups, |groups|)
  {
    hide Linked, WithOperatorWeights, SameSettings, SameThresholds, WithWeights;
    SettingsHaveThresholds(s, q);
    WeighingKeepsThresholds(s, q, t);
    ReweightingKeepsSettings(s, q, weights);
    LinkedIgnoresFigures(WithOperatorWeights(s, weights), WithOperatorWeights(q, weights), t, groups);
    WeighingKeepsLinks(WithOperatorWeights(s, weights), t, groups);
  }
}
