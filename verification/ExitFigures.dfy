/** The figures of the exit iterator in plain amounts. */
module ExitFigures {
  import opened Wrappers
  import opened Sums
  import opened ValidatorState
  import opened ExitOrder
  import opened ExitOrderLemmas
  import opened ExitOrderSteps
  import opened ExitPreparation
  import opened ExitOrderIterator

  /** The most that leaves with a validator: 2048 ETH with compounding credentials, 32 with others. */
  function Maximum(v: ValidatorState): nat {
    if v.credentials.Compounding? then 2048_000_000_000 else 32_000_000_000
  }

  lemma {:induction false} TotalAddsUp(xs: seq<nat>, ys: seq<nat>, x: nat)
    ensures Total(xs + ys) == Total(xs) + Total(ys) && Total([x]) == x
    decreases |ys|
  {
    if ys == [] {
      assert xs + ys == xs;
    } else {
      TotalAddsUp(xs, ys[..|ys| - 1], x);
      assert (xs + ys)[..|xs + ys| - 1] == xs + ys[..|ys| - 1];
    }
    assert [x][..0] == [];
  }

  /** A validator brings in its balance, its top-ups and what is consolidated into it, up to its maximum. */
  lemma {:induction false} InboundInFigures(v: LidoValidator)
    ensures var all := v.balance + Total(v.pendingTopups) + Total(v.consolidatingAsTarget);
      PredictableInboundBalance(v) == if all < Maximum(v.state) then all else Maximum(v.state)
  {
  }

  /** A key in the deposit queue brings in its deposits, up to 32 ETH with 0x01 credentials and else up to 2048. */
  lemma {:induction false} PendingInFigures(p: PendingValidator)
    ensures var most := if p.eth1 then 32_000_000_000 else 2048_000_000_000;
      PendingAmount(p) == if Total(p.amounts) < most then Total(p.amounts) else most
  {
  }

  lemma {:induction false} InboundAddsUp(vs: seq<LidoValidator>, ws: seq<LidoValidator>, v: LidoValidator)
    ensures InboundBalances(vs + ws) == InboundBalances(vs) + InboundBalances(ws)
    ensures InboundBalances([v]) == PredictableInboundBalance(v)
  {
    if vs == [] {
      assert vs + ws == ws;
    } else {
      InboundAddsUp(vs[1..], ws, v);
      assert (vs + ws)[1..] == vs[1..] + ws;
    }
    assert [v][1..] == [];
  }

  lemma {:induction false} PendingAddsUp(
      ps: seq<PendingValidator>, qs: seq<PendingValidator>, p: PendingValidator, g: Gid)
    ensures PendingCount(ps + qs, g) == PendingCount(ps, g) + PendingCount(qs, g)
    ensures PendingCount([p], g) == if p.gid == g then 1 else 0
    ensures PendingBalance(ps + qs, g) == PendingBalance(ps, g) + PendingBalance(qs, g)
    ensures PendingBalance([p], g) == if p.gid == g then PendingAmount(p) else 0
    decreases |qs|
  {
    if qs == [] {
      assert ps + qs == ps;
    } else {
      PendingAddsUp(ps, qs[..|qs| - 1], p, g);
      assert (ps + qs)[..|ps + qs| - 1] == ps + qs[..|qs| - 1];
    }
    assert [p][..0] == [];
  }

  /** The exit balance counts a validator with its maximum. */
  lemma {:induction false} ExitBalanceOfOne(e: Ejection)
    ensures ExitBalance([e]) == Maximum(e.validator.state)
  {
    assert [e][..0] == [];
  }

  // ----- Prepared weights -----

  /** The weights the contract gives to the sub operators of a group, added up. */
  function GroupWeight(subs: seq<OperatorId>, weights: map<OperatorId, nat>): real {
    if subs == [] then 0.0
    else
      var last := subs[|subs| - 1];
      GroupWeight(subs[..|subs| - 1], weights) + (if last in weights then weights[last] as real else 0.0)
  }

  lemma {:induction false} GroupWeightIsSum(
      s: Snapshot, ops: map<Gid, OperatorStats>, weights: map<OperatorId, nat>, group: OperatorGroup, n: nat)
    requires ops == WithOperatorWeights(s, weights).ops && n <= |group.subs|
    requires forall g :: g in group.Internals(s.cmV2) ==> g in s.ops && g.operatorId in weights
    ensures SumTo(group.Internals(s.cmV2), n, Weights(ops)) == GroupWeight(group.subs[..n], weights)
    decreases n
  {
    if n > 0 {
      GroupWeightIsSum(s, ops, weights, group, n - 1);
      assert group.Internals(s.cmV2)[n - 1] in group.Internals(s.cmV2);
      assert group.subs[..n][..n - 1] == group.subs[..n - 1];
    }
  }

  /**
     What a prepared operator weighs: in CMv2 what the contract says, for an external operator of a connected group
     an equal part of what the contract gives to the group, and otherwise 100000.
   */
  lemma {:induction false} PreparedWeight(
      s: Snapshot, t: Snapshot, weights: map<OperatorId, nat>, groups: seq<OperatorGroup>, g: Gid)
    requires Linked(WithOperatorWeights(s, weights), t, groups, |groups|) && Shape(t) && g in t.ops
    requires forall h :: h in s.ops ==> s.ops[h].weight == 100000.0
    requires forall h :: h in s.ops && h.moduleId == s.cmV2 ==> h.operatorId in weights
    ensures g.moduleId == s.cmV2 ==> g.operatorId in weights && t.ops[g].weight == weights[g.operatorId] as real
    ensures g.moduleId != s.cmV2 ==>
      t.ops[g].weight ==
        if t.ops[g].externalGroup.Some? && |t.ops[g].externalGroup.value.subs| > 0
        then GroupWeight(t.ops[g].externalGroup.value.subs, weights) / |t.ops[g].externalGroup.value.externals| as real
        else 100000.0
  {
    hide GroupWeight, MembersLinked, InternalWeight, ExpectedWeight, EqualPart;
    var w := WithOperatorWeights(s, weights);
    assert OperatorLinked(w, g, w.ops[g], t.ops[g], groups[..|groups|]);
    WeightsOfOthers(w.ops, t.ops[g], s.cmV2, w.ops[g].weight);
    if t.ops[g].externalGroup.Some? {
      SubsAreKnown(w, t, groups, t.ops[g].externalGroup.value);
      GroupWeightOf(s, weights, t.ops[g].externalGroup.value);
    }
  }

  lemma {:induction false} WeightsOfOthers(
      ops: map<Gid, OperatorStats>, o: OperatorStats, cmV2: ModuleId, unlinked: real)
    ensures o.externalGroup.None? ==> ExpectedWeight(ops, o, cmV2, unlinked) == unlinked
    ensures o.externalGroup.Some? && |o.externalGroup.value.externals| > 0 ==>
      (ExpectedWeight(ops, o, cmV2, unlinked) ==
       if |o.externalGroup.value.subs| > 0
       then InternalWeight(ops, o.externalGroup.value, cmV2) / |o.externalGroup.value.externals| as real
       else unlinked)
  {
  }

  lemma {:induction false} SubsAreKnown(w: Snapshot, t: Snapshot, groups: seq<OperatorGroup>, group: OperatorGroup)
    requires Linked(w, t, groups, |groups|) && group in groups
    ensures forall h :: h in group.Internals(w.cmV2) ==> h in w.ops && h.moduleId == w.cmV2
  {
    hide OperatorLinked;
    var k :| 0 <= k < |groups| && groups[k] == group;
  }

  lemma {:induction false} GroupWeightOf(s: Snapshot, weights: map<OperatorId, nat>, group: OperatorGroup)
    requires forall g :: g in group.Internals(s.cmV2) ==> g in s.ops && g.operatorId in weights
    ensures InternalWeight(WithOperatorWeights(s, weights).ops, group, s.cmV2) == GroupWeight(group.subs, weights)
  {
    GroupWeightIsSum(s, WithOperatorWeights(s, weights).ops, weights, group, |group.subs|);
    assert group.subs[..|group.subs|] == group.subs;
  }
}
