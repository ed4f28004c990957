/** Registering an operator group keeps every figure equal to its fresh recomputation. */
module ExitGroupLemmas {
  import opened Wrappers
  import opened Sums
  import opened ExitOrder
  import opened ExitOrderLemmas

  ghost predicate MembersFit(ops: map<Gid, OperatorStats>, gids: seq<Gid>, m: ModuleId) {
    && Distinct(gids)
    && forall g :: g in gids ==> g.moduleId == m && g in ops && !ops[g].Grouped()
  }

  /** No error while registering means: members of the right module, known, ungrouped and not repeated. */
  lemma {:induction false} NoMemberErrorMeansFit(ops: map<Gid, OperatorStats>, gids: seq<Gid>, n: nat, m: ModuleId)
    requires n <= |gids|
    ensures FirstMemberError(ops, gids, n, m).None? <==> MembersFit(ops, gids[..n], m)
  {
    if n > 0 {
      NoMemberErrorMeansFit(ops, gids, n - 1, m);
      assert gids[..n][..n - 1] == gids[..n - 1];
      assert gids[..n] == gids[..n - 1] + [gids[n - 1]];
    }
  }

  /** Exactly when a group can be registered. */
  ghost predicate GroupFits(s: Snapshot, group: OperatorGroup) {
    && MembersFit(s.ops, group.externals, s.cmV1)
    && MembersFit(s.ops, group.Internals(s.cmV2), s.cmV2)
    && (group.HasConnection() ==> InternalWeight(s.ops, group, s.cmV2) != 0.0)
  }

  lemma {:induction false} NoGroupErrorIffFits(s: Snapshot, group: OperatorGroup)
    ensures FirstGroupError(s, group).None? <==> GroupFits(s, group)
  {
    var internals := group.Internals(s.cmV2);
    NoMemberErrorMeansFit(s.ops, group.externals, |group.externals|, s.cmV1);
    NoMemberErrorMeansFit(s.ops, internals, |internals|, s.cmV2);
    assert group.externals[..|group.externals|] == group.externals;
    assert internals[..|internals|] == internals;
  }

  lemma {:induction false} WithGroupKeepsSums(s: Snapshot, group: OperatorGroup, other: OperatorGroup)
    requires Shape(s) && FirstGroupError(s, group).None? && GroupFits(s, group)
    ensures ExternalBalance(WithGroup(s, group).ops, other) == ExternalBalance(s.ops, other)
    ensures InternalBalance(WithGroup(s, group).ops, other, s.cmV2) == InternalBalance(s.ops, other, s.cmV2)
    ensures InternalWeight(WithGroup(s, group).ops, other, s.cmV2) == InternalWeight(s.ops, other, s.cmV2)
  {
    var t := WithGroup(s, group);
    SumAgrees(other.externals, Balances(s.ops), Balances(t.ops));
    SumAgrees(other.Internals(s.cmV2), Balances(s.ops), Balances(t.ops));
    WeightsUnchanged(other.Internals(s.cmV2), s.ops, t.ops);
  }

  lemma {:induction false} WithGroupKeepsLinked(s: Snapshot, group: OperatorGroup, prior: OperatorGroup)
    requires Shape(s) && FirstGroupError(s, group).None? && GroupFits(s, group) && GroupLinked(s, prior)
    ensures GroupLinked(WithGroup(s, group), prior)
  {
    WithGroupKeepsSums(s, group, prior);
    forall e | e in prior.externals ensures e !in group.externals && e !in group.Internals(s.cmV2) {
      assert s.ops[e].Grouped();
    }
    forall i | i in prior.Internals(s.cmV2) ensures i !in group.externals && i !in group.Internals(s.cmV2) {
      assert s.ops[i].Grouped();
    }
  }

  lemma {:induction false} NewGroupLinked(s: Snapshot, group: OperatorGroup)
    requires Shape(s) && FirstGroupError(s, group).None? && GroupFits(s, group)
    ensures GroupLinked(WithGroup(s, group), group)
  {
    WithGroupKeepsSums(s, group, group);
    assert forall e :: e in group.externals ==> e !in group.Internals(s.cmV2);
  }

  lemma {:induction false} WithGroupKeepsLinks(s: Snapshot, group: OperatorGroup)
    requires Shape(s) && LinksOk(s) && FirstGroupError(s, group).None? && GroupFits(s, group)
    ensures Shape(WithGroup(s, group)) && LinksOk(WithGroup(s, group))
  {
    var t := WithGroup(s, group);
    NewGroupLinked(s, group);
    forall prior | GroupLinked(s, prior) ensures GroupLinked(t, prior) {
      WithGroupKeepsLinked(s, group, prior);
    }
    forall g | g in t.ops && t.ops[g].internalGroup.Some?
      ensures g in t.ops[g].internalGroup.value.Internals(t.cmV2) && GroupLinked(t, t.ops[g].internalGroup.value)
    {
      if g !in group.Internals(s.cmV2) { assert t.ops[g].internalGroup == s.ops[g].internalGroup; }
    }
    forall g | g in t.ops && t.ops[g].externalGroup.Some?
      ensures g in t.ops[g].externalGroup.value.externals && GroupLinked(t, t.ops[g].externalGroup.value)
    {
      if g !in group.externals { assert t.ops[g].externalGroup == s.ops[g].externalGroup; }
    }
  }

  lemma {:induction false} StakeWithGroup(s: Snapshot, group: OperatorGroup, g: Gid)
    requires Shape(s) && StakesFresh(s) && FirstGroupError(s, group).None? && GroupFits(s, group) && g in s.ops
    ensures WithGroup(s, group).ops[g].totalStake == ExpectedStake(WithGroup(s, group), g)
  {
    var t := WithGroup(s, group);
    assert s.ops[g].totalStake == ExpectedStake(s, g);
    WithGroupKeepsSums(s, group, group);
    if s.ops[g].internalGroup.Some? { WithGroupKeepsSums(s, group, s.ops[g].internalGroup.value); }
    if s.ops[g].externalGroup.Some? { WithGroupKeepsSums(s, group, s.ops[g].externalGroup.value); }
  }

  /** What registering a group adds to the stake of an operator. */
  function AddedStake(s: Snapshot, group: OperatorGroup): Gid -> real
    requires FirstGroupError(s, group).None?
  {
    (g: Gid) => if g in s.ops then GroupedOperator(s, group, g).totalStake - s.ops[g].totalStake else 0.0
  }

  lemma {:induction false} StakeAddedToExternals(s: Snapshot, group: OperatorGroup)
    requires Shape(s) && Distinct(s.order) && FirstGroupError(s, group).None? && GroupFits(s, group)
    requires group.HasConnection()
    ensures Sum(s.order, Within(s.cmV1, AddedStake(s, group))) == InternalBalance(s.ops, group, s.cmV2)
  {
    var added, members := Within(s.cmV1, AddedStake(s, group)), group.externals;
    var amount := InternalBalance(s.ops, group, s.cmV2);
    forall h | h in members ensures h in s.order && added(h) == EqualPart(amount, |members|) {
    }
    forall h | h in s.order && h !in members ensures added(h) == 0.0 {
    }
    SumOverMembers(s.order, members, added, added);
    EqualPartsAddUp(members, amount, added);
  }

  lemma {:induction false} StakeAddedToInternals(s: Snapshot, group: OperatorGroup)
    requires Shape(s) && Distinct(s.order) && FirstGroupError(s, group).None? && GroupFits(s, group)
    requires group.HasConnection()
    ensures Sum(s.order, Within(s.cmV2, AddedStake(s, group))) == ExternalBalance(s.ops, group)
  {
    var added, members := Within(s.cmV2, AddedStake(s, group)), group.Internals(s.cmV2);
    var amount, total := ExternalBalance(s.ops, group), InternalWeight(s.ops, group, s.cmV2);
    forall h | h in members ensures h in s.order && added(h) == Portion(amount, s.ops[h].weight, total) {
    }
    forall h | h in s.order && h !in members ensures added(h) == 0.0 {
    }
    SumOverMembers(s.order, members, added, added);
    PortionsAddUp(members, s.ops, total, amount, added);
  }

  lemma {:induction false} NoStakeAdded(s: Snapshot, group: OperatorGroup, m: ModuleId)
    requires Shape(s) && FirstGroupError(s, group).None? && GroupFits(s, group)
    requires group.HasConnection() ==> m != s.cmV1 && m != s.cmV2
    ensures Sum(s.order, Within(m, AddedStake(s, group))) == 0.0
  {
    forall h | h in s.order ensures Within(m, AddedStake(s, group))(h) == 0.0 {
    }
    SumOfConstant(s.order, Within(m, AddedStake(s, group)), 0.0);
  }

  lemma {:induction false} WithGroupKeepsTotals(s: Snapshot, group: OperatorGroup)
    requires Shape(s) && Distinct(s.order) && TotalsFresh(s)
    requires FirstGroupError(s, group).None? && GroupFits(s, group)
    ensures TotalsFresh(WithGroup(s, group))
  {
    hide MembersFit, GroupFits, FirstGroupError, EqualPart, Portion, Distinct;
    var t := WithGroup(s, group);
    SumAgrees(s.order, Balances(s.ops), Balances(t.ops));
    forall m | m in t.modules
      ensures t.modules[m].predictableBalance as real == Sum(t.order, Within(m, Balances(t.ops)))
      ensures t.modules[m].totalStake == Sum(t.order, Within(m, Stakes(t.ops)))
    {
      SumAgrees(s.order, Within(m, Balances(s.ops)), Within(m, Balances(t.ops)));
      if group.HasConnection() && m == s.cmV1 {
        StakeAddedToExternals(s, group);
      } else if group.HasConnection() && m == s.cmV2 {
        StakeAddedToInternals(s, group);
      } else {
        NoStakeAdded(s, group, m);
      }
      SumAdds(s.order, Within(m, Stakes(s.ops)), Within(m, AddedStake(s, group)), Within(m, Stakes(t.ops)));
    }
  }

  lemma {:induction false} WithGroupKeepsOwnFigures(s: Snapshot, group: OperatorGroup, pending: seq<PendingValidator>)
    requires Shape(s) && OwnFiguresFresh(s, pending) && FirstGroupError(s, group).None?
    ensures OwnFiguresFresh(WithGroup(s, group), pending)
  {
    var t := WithGroup(s, group);
    forall g | g in t.ops
      ensures t.ops[g].predictableValidators == s.ops[g].predictableValidators
      ensures t.ops[g].predictableBalance == s.ops[g].predictableBalance
    {
    }
  }

  lemma {:induction false} WithGroupKeepsStakes(s: Snapshot, group: OperatorGroup)
    requires Shape(s) && StakesFresh(s) && FirstGroupError(s, group).None? && GroupFits(s, group)
    ensures StakesFresh(WithGroup(s, group))
  {
    forall g | g in s.ops ensures WithGroup(s, group).ops[g].totalStake == ExpectedStake(WithGroup(s, group), g) {
      StakeWithGroup(s, group, g);
    }
  }

  /** A group that can be registered leaves every figure equal to its fresh recomputation. */
  lemma {:induction false} WithGroupKeepsFresh(s: Snapshot, group: OperatorGroup, pending: seq<PendingValidator>)
    requires Fresh(s, pending) && FirstGroupError(s, group).None?
    ensures Fresh(WithGroup(s, group), pending)
  {
    hide LinksOk, TotalsFresh, StakesFresh, OwnFiguresFresh, Distinct;
    NoGroupErrorIffFits(s, group);
    WithGroupKeepsLinks(s, group);
    WithGroupKeepsTotals(s, group);
    WithGroupKeepsOwnFigures(s, group, pending);
    WithGroupKeepsStakes(s, group);
  }
}
