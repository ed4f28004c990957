/** Ejecting a validator and registering a group keep every figure equal to its fresh recomputation. */
module ExitOrderLemmas {
  import opened Wrappers
  import opened Sums
  import opened ValidatorState
  import opened ExitOrder

  // ----- Balances after an ejection -----

  /** Taking `balance` off one operator takes it off every sum that contains the operator. */
  lemma {:induction false} SumAfterChange(xs: seq<Gid>, f: Gid -> real, f': Gid -> real, g: Gid, change: real)
    requires Distinct(xs)
    requires forall h :: h in xs ==> f'(h) == f(h) + (if h == g then change else 0.0)
    ensures Sum(xs, f') == Sum(xs, f) + (if g in xs then change else 0.0)
  {
    var point := (h: Gid) => if h == g then change else 0.0;
    SumAdds(xs, f, point, f');
    SumOfPoint(xs, g, point);
  }

  lemma {:induction false} ModuleSumAfterChange(
      xs: seq<Gid>, m: ModuleId, f: Gid -> real, f': Gid -> real, g: Gid, change: real)
    requires Distinct(xs) && g in xs
    requires forall h :: h in xs ==> f'(h) == f(h) + (if h == g then change else 0.0)
    ensures Sum(xs, Within(m, f')) == Sum(xs, Within(m, f)) + (if m == g.moduleId then change else 0.0)
  {
    if m == g.moduleId {
      SumAfterChange(xs, Within(m, f), Within(m, f'), g, change);
    } else {
      SumAgrees(xs, Within(m, f), Within(m, f'));
    }
  }

  /** Crediting an operator keeps the totals equal to the sums over the operators. */
  lemma {:induction false} CreditedKeepsTotals(s: Snapshot, g: Gid, count: int, balance: int)
    requires Shape(s) && Distinct(s.order) && TotalsFresh(s) && g in s.ops
    ensures Shape(Credited(s, g, count, balance)) && TotalsFresh(Credited(s, g, count, balance))
  {
    var t := Credited(s, g, count, balance);
    SumAfterChange(s.order, Balances(s.ops), Balances(t.ops), g, balance as real);
    forall m | m in t.modules
      ensures t.modules[m].predictableBalance as real == Sum(t.order, Within(m, Balances(t.ops)))
      ensures t.modules[m].totalStake == Sum(t.order, Within(m, Stakes(t.ops)))
    {
      ModuleSumAfterChange(s.order, m, Balances(s.ops), Balances(t.ops), g, balance as real);
      ModuleSumAfterChange(s.order, m, Stakes(s.ops), Stakes(t.ops), g, balance as real);
    }
  }

  // ----- Stakes after an ejection -----

  lemma {:induction false} WeightsUnchanged(xs: seq<Gid>, ops: map<Gid, OperatorStats>, ops': map<Gid, OperatorStats>)
    requires forall g :: g in xs ==> Weights(ops')(g) == Weights(ops)(g)
    ensures Sum(xs, Weights(ops')) == Sum(xs, Weights(ops))
  {
    SumAgrees(xs, Weights(ops), Weights(ops'));
  }

  lemma {:induction false} EjectedKeepsGroupWeight(s: Snapshot, g: Gid, group: OperatorGroup)
    requires Shape(s) && g in s.ops && s.exitable[g] != []
    ensures InternalWeight(Ejected(s, g).ops, group, s.cmV2) == InternalWeight(s.ops, group, s.cmV2)
  {
    hide LinkedDecrease, LinkedModuleDecrease;
    WeightsUnchanged(group.Internals(s.cmV2), s.ops, Ejected(s, g).ops);
  }

  lemma {:induction false} EjectedKeepsGroup(s: Snapshot, g: Gid, group: OperatorGroup)
    requires Shape(s) && g in s.ops && s.exitable[g] != [] && GroupLinked(s, group)
    ensures GroupLinked(Ejected(s, g), group)
  {
    hide LinkedDecrease, LinkedModuleDecrease, Distinct, InternalWeight;
    EjectedKeepsGroupWeight(s, g, group);
  }

  /** An ejection changes neither the links nor the weights. */
  lemma {:induction false} EjectedKeepsLinks(s: Snapshot, g: Gid)
    requires Shape(s) && LinksOk(s) && g in s.ops && s.exitable[g] != []
    ensures Shape(Ejected(s, g)) && LinksOk(Ejected(s, g))
    ensures forall group: OperatorGroup ::
      InternalWeight(Ejected(s, g).ops, group, s.cmV2) == InternalWeight(s.ops, group, s.cmV2)
  {
    hide LinkedDecrease, LinkedModuleDecrease, Distinct, InternalWeight, GroupLinked;
    var t := Ejected(s, g);
    forall group: OperatorGroup
      ensures InternalWeight(t.ops, group, s.cmV2) == InternalWeight(s.ops, group, s.cmV2)
    {
      EjectedKeepsGroupWeight(s, g, group);
    }
    forall group | GroupLinked(s, group) ensures GroupLinked(t, group) {
      EjectedKeepsGroup(s, g, group);
    }
  }

  lemma {:induction false} GroupBalancesAfterEjection(s: Snapshot, g: Gid, group: OperatorGroup)
    requires Shape(s) && g in s.ops && s.exitable[g] != [] && GroupLinked(s, group)
    ensures ExternalBalance(Ejected(s, g).ops, group) == ExternalBalance(s.ops, group)
      - (if g in group.externals then PredictableInboundBalance(s.exitable[g][0]) as real else 0.0)
    ensures InternalBalance(Ejected(s, g).ops, group, s.cmV2) == InternalBalance(s.ops, group, s.cmV2)
      - (if g in group.Internals(s.cmV2) then PredictableInboundBalance(s.exitable[g][0]) as real else 0.0)
  {
    var t := Ejected(s, g);
    var change := -(PredictableInboundBalance(s.exitable[g][0]) as real);
    SumAfterChange(group.externals, Balances(s.ops), Balances(t.ops), g, change);
    SumAfterChange(group.Internals(s.cmV2), Balances(s.ops), Balances(t.ops), g, change);
  }

  lemma {:induction false} QuotientSplits(a: real, b: real, n: real)
    requires n != 0.0
    ensures (a - b) / n == a / n - b / n
  {
    var p, q := a / n, b / n;
    assert p * n == a && q * n == b;
    assert (p - q) * n == a - b;
  }

  lemma {:induction false} PortionSplits(a: real, b: real, w: real, total: real)
    requires total != 0.0
    ensures Portion(a - b, w, total) == Portion(a, w, total) - Portion(b, w, total)
  {
    assert (a - b) * w == a * w - b * w;
    QuotientSplits(a * w, b * w, total);
  }

  lemma {:induction false} EqualPartSplits(a: real, b: real, n: nat)
    requires n != 0
    ensures EqualPart(a - b, n) == EqualPart(a, n) - EqualPart(b, n)
  {
    QuotientSplits(a, b, n as real);
  }

  /** An operator of CMv2 loses stake exactly when the validator leaves an external operator of its group. */
  lemma {:induction false} LinkedDecreaseOfInternal(s: Snapshot, g: Gid, balance: int, h: Gid)
    requires Shape(s) && LinksOk(s) && g in s.ops && h in s.ops && s.ops[h].internalGroup.Some?
    ensures var group := s.ops[h].internalGroup.value;
      LinkedDecrease(s, g, balance, h) == if group.HasConnection() && g in group.externals
        then Portion(balance as real, s.ops[h].weight, InternalWeight(s.ops, group, s.cmV2)) else 0.0
  {
  }

  /** An operator of CMv1 loses stake exactly when the validator leaves a sub operator of its group. */
  lemma {:induction false} LinkedDecreaseOfExternal(s: Snapshot, g: Gid, balance: int, h: Gid)
    requires Shape(s) && LinksOk(s) && g in s.ops && h in s.ops && s.ops[h].externalGroup.Some?
    ensures var group := s.ops[h].externalGroup.value;
      LinkedDecrease(s, g, balance, h) == if group.HasConnection() && g in group.Internals(s.cmV2)
        then EqualPart(balance as real, |group.externals|) else 0.0
  {
  }

  lemma {:induction false} LinkedDecreaseOfUngrouped(s: Snapshot, g: Gid, balance: int, h: Gid)
    requires Shape(s) && LinksOk(s) && g in s.ops && h in s.ops && !s.ops[h].Grouped()
    ensures LinkedDecrease(s, g, balance, h) == 0.0
  {
  }

  lemma {:induction false} EjectedOperatorLinks(s: Snapshot, g: Gid, h: Gid)
    requires Shape(s) && g in s.ops && s.exitable[g] != [] && h in s.ops
    ensures var o, o' := s.ops[h], Ejected(s, g).ops[h];
      Ejected(s, g).cmV2 == s.cmV2 && o'.internalGroup == o.internalGroup && o'.externalGroup == o.externalGroup
      && o'.weight == o.weight
  {
  }

  lemma {:induction false} InternalShareAfterEjection(s: Snapshot, g: Gid, h: Gid)
    requires Shape(s) && LinksOk(s) && g in s.ops && s.exitable[g] != [] && h in s.ops
    requires s.ops[h].internalGroup.Some?
    ensures InternalShare(Ejected(s, g), h)
      == InternalShare(s, h) - LinkedDecrease(s, g, PredictableInboundBalance(s.exitable[g][0]), h)
  {
    hide Ejected, LinkedDecrease, Portion, Distinct, Sum, PredictableInboundBalance;
    var group := s.ops[h].internalGroup.value;
    var balance := PredictableInboundBalance(s.exitable[g][0]);
    EjectedOperatorLinks(s, g, h);
    EjectedKeepsLinks(s, g);
    LinkedDecreaseOfInternal(s, g, balance, h);
    GroupBalancesAfterEjection(s, g, group);
    if group.HasConnection() {
      PortionSplits(ExternalBalance(s.ops, group), balance as real,
        s.ops[h].weight, InternalWeight(s.ops, group, s.cmV2));
    }
  }

  lemma {:induction false} ExternalShareAfterEjection(s: Snapshot, g: Gid, h: Gid)
    requires Shape(s) && LinksOk(s) && g in s.ops && s.exitable[g] != [] && h in s.ops
    requires s.ops[h].externalGroup.Some?
    ensures ExternalShare(Ejected(s, g), h)
      == ExternalShare(s, h) - LinkedDecrease(s, g, PredictableInboundBalance(s.exitable[g][0]), h)
  {
    hide Ejected, LinkedDecrease, EqualPart, Distinct, Sum, PredictableInboundBalance;
    var group := s.ops[h].externalGroup.value;
    var balance := PredictableInboundBalance(s.exitable[g][0]);
    EjectedOperatorLinks(s, g, h);
    LinkedDecreaseOfExternal(s, g, balance, h);
    GroupBalancesAfterEjection(s, g, group);
    if group.HasConnection() {
      EqualPartSplits(InternalBalance(s.ops, group, s.cmV2), balance as real, |group.externals|);
    }
  }

  /** The stake an ejection leaves, with the group shares read before the ejection. */
  lemma {:induction false} EjectedStake(s: Snapshot, g: Gid, h: Gid)
    requires Shape(s) && g in s.ops && s.exitable[g] != [] && h in s.ops
    ensures var balance := PredictableInboundBalance(s.exitable[g][0]);
      Ejected(s, g).ops[h].totalStake
        == s.ops[h].totalStake - (if h == g then balance as real else 0.0) - LinkedDecrease(s, g, balance, h)
  {
    var p := Popped(s, g);
    if s.ops[g].externalGroup.Some? {
      WeightsUnchanged(s.ops[g].externalGroup.value.Internals(s.cmV2), s.ops, p.ops);
    }
  }

  lemma {:induction false} StakeAfterEjection(s: Snapshot, g: Gid, h: Gid)
    requires Shape(s) && LinksOk(s) && StakesFresh(s) && g in s.ops && s.exitable[g] != [] && h in s.ops
    ensures Ejected(s, g).ops[h].totalStake == ExpectedStake(Ejected(s, g), h)
  {
    var t, balance := Ejected(s, g), PredictableInboundBalance(s.exitable[g][0]);
    EjectedStake(s, g, h);
    assert s.ops[h].totalStake == ExpectedStake(s, h);
    assert InternalShare(t, h) + ExternalShare(t, h)
        == InternalShare(s, h) + ExternalShare(s, h) - LinkedDecrease(s, g, balance, h) by {
      if s.ops[h].internalGroup.Some? {
        InternalShareAfterEjection(s, g, h);
        assert s.ops[h].externalGroup.None?;
      } else if s.ops[h].externalGroup.Some? {
        ExternalShareAfterEjection(s, g, h);
      } else {
        LinkedDecreaseOfUngrouped(s, g, balance, h);
      }
    }
  }

  // ----- Totals after an ejection -----

  /** All portions of `balance` scale the weights by the same rate. */
  lemma {:induction false} PortionRate(balance: real, total: real) returns (rate: real)
    requires total != 0.0
    ensures rate * total == balance
    ensures forall w: real :: Portion(balance, w, total) == rate * w
  {
    rate := balance / total;
    assert rate * total == balance;
    forall w: real ensures Portion(balance, w, total) == rate * w {
      assert (rate * w) * total == balance * w;
    }
  }

  lemma {:induction false} PortionsAddUp(
      members: seq<Gid>, ops: map<Gid, OperatorStats>, total: real, balance: real, f: Gid -> real)
    requires total == Sum(members, Weights(ops)) && total != 0.0
    requires forall h :: h in members ==> h in ops && f(h) == Portion(balance, ops[h].weight, total)
    ensures Sum(members, f) == balance
  {
    var rate := PortionRate(balance, total);
    SumScales(members, Weights(ops), rate, f);
  }

  lemma {:induction false} EqualPartsAddUp(members: seq<Gid>, balance: real, f: Gid -> real)
    requires members != []
    requires forall h :: h in members ==> f(h) == EqualPart(balance, |members|)
    ensures Sum(members, f) == balance
  {
    SumOfConstant(members, f, EqualPart(balance, |members|));
  }

  lemma {:induction false} DecreasesOfExternalsAddUp(
      s: Snapshot, g: Gid, balance: int, group: OperatorGroup, m: ModuleId, f: Gid -> real)
    requires m == s.cmV1 && Shape(s) && Distinct(s.order) && LinksOk(s) && g in s.ops
    requires s.ops[g].internalGroup == Some(group) && group.HasConnection()
    requires forall h :: h in s.order ==> f(h) == if h.moduleId == m then LinkedDecrease(s, g, balance, h) else 0.0
    ensures Sum(s.order, f) == balance as real
  {
    var members := group.externals;
    assert s.ops[g].externalGroup.None?;
    forall h | h in members ensures h in s.order && f(h) == EqualPart(balance as real, |members|) {
    }
    forall h | h in s.order && h !in members ensures f(h) == 0.0 {
    }
    SumOverMembers(s.order, members, f, f);
    EqualPartsAddUp(members, balance as real, f);
  }

  lemma {:induction false} DecreasesOfInternalsAddUp(
      s: Snapshot, g: Gid, balance: int, group: OperatorGroup, m: ModuleId, f: Gid -> real)
    requires m == s.cmV2 && Shape(s) && Distinct(s.order) && LinksOk(s) && g in s.ops
    requires s.ops[g].externalGroup == Some(group) && group.HasConnection()
    requires forall h :: h in s.order ==> f(h) == if h.moduleId == m then LinkedDecrease(s, g, balance, h) else 0.0
    ensures Sum(s.order, f) == balance as real
  {
    var members := group.Internals(s.cmV2);
    assert s.ops[g].internalGroup.None?;
    forall h | h in members
      ensures h in s.order && f(h) == Portion(balance as real, s.ops[h].weight, InternalWeight(s.ops, group, s.cmV2))
    {
    }
    forall h | h in s.order && h !in members ensures f(h) == 0.0 {
    }
    SumOverMembers(s.order, members, f, f);
    PortionsAddUp(members, s.ops, InternalWeight(s.ops, group, s.cmV2), balance as real, f);
  }

  lemma {:induction false} NoLinkedDecrease(s: Snapshot, g: Gid, balance: int, m: ModuleId, f: Gid -> real)
    requires Shape(s) && LinksOk(s) && g in s.ops
    requires s.ops[g].internalGroup.Some? && s.ops[g].internalGroup.value.HasConnection() ==> m != s.cmV1
    requires s.ops[g].externalGroup.Some? && s.ops[g].externalGroup.value.HasConnection() ==> m != s.cmV2
    requires forall h :: h in s.order ==> f(h) == if h.moduleId == m then LinkedDecrease(s, g, balance, h) else 0.0
    ensures Sum(s.order, f) == 0.0
  {
    forall h | h in s.order && h.moduleId == m ensures LinkedDecrease(s, g, balance, h) == 0.0 {
    }
    SumOfConstant(s.order, f, 0.0);
  }

  /** The parts taken off the operators of the linked module add up to the ejected balance. */
  lemma {:induction false} LinkedDecreasesAddUp(s: Snapshot, g: Gid, balance: int, m: ModuleId, f: Gid -> real)
    requires Shape(s) && Distinct(s.order) && LinksOk(s) && g in s.ops && m in s.modules
    requires forall h :: h in s.order ==> f(h) == if h.moduleId == m then LinkedDecrease(s, g, balance, h) else 0.0
    ensures Sum(s.order, f) == LinkedModuleDecrease(s, g, balance, m)
  {
    var internal, external := s.ops[g].internalGroup, s.ops[g].externalGroup;
    assert internal.Some? ==> external.None?;
    if internal.Some? && internal.value.HasConnection() && m == s.cmV1 {
      DecreasesOfExternalsAddUp(s, g, balance, internal.value, m, f);
    } else if external.Some? && external.value.HasConnection() && m == s.cmV2 {
      DecreasesOfInternalsAddUp(s, g, balance, external.value, m, f);
    } else {
      NoLinkedDecrease(s, g, balance, m, f);
    }
  }

  lemma {:induction false} StakeSumAfterEjection(s: Snapshot, g: Gid, m: ModuleId)
    requires Shape(s) && Distinct(s.order) && LinksOk(s) && g in s.ops && s.exitable[g] != [] && m in s.modules
    ensures var balance := PredictableInboundBalance(s.exitable[g][0]);
      Sum(s.order, Within(m, Stakes(Ejected(s, g).ops))) == Sum(s.order, Within(m, Stakes(s.ops)))
        - (if m == g.moduleId then balance as real else 0.0) - LinkedModuleDecrease(s, g, balance, m)
  {
    var t, balance := Ejected(s, g), PredictableInboundBalance(s.exitable[g][0]);
    var own := (h: Gid) => if h == g && h.moduleId == m then -(balance as real) else 0.0;
    var linked := (h: Gid) => if h.moduleId == m then LinkedDecrease(s, g, balance, h) else 0.0;
    var before, after := Within(m, Stakes(s.ops)), Within(m, Stakes(t.ops));
    var withoutLinked := (h: Gid) => before(h) + own(h);
    forall h | h in s.order ensures withoutLinked(h) == after(h) + linked(h) {
      EjectedStake(s, g, h);
    }
    SumAdds(s.order, after, linked, withoutLinked);
    SumAdds(s.order, before, own, withoutLinked);
    SumOfPoint(s.order, g, own);
    LinkedDecreasesAddUp(s, g, balance, m, linked);
  }

  lemma {:induction false} EjectedModuleStake(s: Snapshot, g: Gid, m: ModuleId)
    requires Shape(s) && g in s.ops && s.exitable[g] != [] && m in s.modules
    ensures var balance := PredictableInboundBalance(s.exitable[g][0]);
      Ejected(s, g).modules[m].totalStake == s.modules[m].totalStake
        - (if m == g.moduleId then balance as real else 0.0) - LinkedModuleDecrease(s, g, balance, m)
  {
  }

  /** An ejection takes the balance off the operator, its module and the total, and off nothing else. */
  lemma {:induction false} EjectedBalances(s: Snapshot, g: Gid, h: Gid, m: ModuleId)
    requires Shape(s) && g in s.ops && s.exitable[g] != [] && m in s.modules
    ensures var t, balance := Ejected(s, g), PredictableInboundBalance(s.exitable[g][0]);
      && t.order == s.order && t.modules.Keys == s.modules.Keys && t.totalBalance == s.totalBalance - balance
      && Balances(t.ops)(h) == Balances(s.ops)(h) + (if h == g then -(balance as real) else 0.0)
      && t.modules[m].predictableBalance
         == s.modules[m].predictableBalance - (if m == g.moduleId then balance else 0)
  {
    hide LinkedDecrease, LinkedModuleDecrease;
  }

  lemma {:induction false} EjectedModuleBalance(s: Snapshot, g: Gid, m: ModuleId)
    requires Shape(s) && Distinct(s.order) && TotalsFresh(s) && g in s.ops && s.exitable[g] != [] && m in s.modules
    ensures m in Ejected(s, g).modules
    ensures var t := Ejected(s, g);
      t.modules[m].predictableBalance as real == Sum(t.order, Within(m, Balances(t.ops)))
  {
    hide Ejected, Balances, Distinct;
    var t, change := Ejected(s, g), -(PredictableInboundBalance(s.exitable[g][0]) as real);
    EjectedBalances(s, g, g, m);
    forall h | h in s.order ensures Balances(t.ops)(h) == Balances(s.ops)(h) + (if h == g then change else 0.0) {
      EjectedBalances(s, g, h, m);
    }
    ModuleSumAfterChange(s.order, m, Balances(s.ops), Balances(t.ops), g, change);
  }

  lemma {:induction false} EjectedModuleTotals(s: Snapshot, g: Gid, m: ModuleId)
    requires Shape(s) && Distinct(s.order) && LinksOk(s) && TotalsFresh(s) && g in s.ops && s.exitable[g] != []
    requires m in s.modules
    ensures m in Ejected(s, g).modules
    ensures var t := Ejected(s, g);
      && t.modules[m].predictableBalance as real == Sum(t.order, Within(m, Balances(t.ops)))
      && t.modules[m].totalStake == Sum(t.order, Within(m, Stakes(t.ops)))
  {
    hide LinksOk, Distinct, LinkedDecrease, LinkedModuleDecrease, Sum, Balances, Stakes;
    EjectedModuleBalance(s, g, m);
    StakeSumAfterEjection(s, g, m);
    EjectedModuleStake(s, g, m);
  }

  lemma {:induction false} EjectedKeepsTotals(s: Snapshot, g: Gid)
    requires Shape(s) && Distinct(s.order) && LinksOk(s) && TotalsFresh(s) && g in s.ops && s.exitable[g] != []
    ensures TotalsFresh(Ejected(s, g))
  {
    hide Ejected, Balances, Distinct, LinksOk, Sum;
    var t, change := Ejected(s, g), -(PredictableInboundBalance(s.exitable[g][0]) as real);
    EjectedBalances(s, g, g, g.moduleId);
    forall h | h in s.order ensures Balances(t.ops)(h) == Balances(s.ops)(h) + (if h == g then change else 0.0) {
      EjectedBalances(s, g, h, g.moduleId);
    }
    SumAfterChange(s.order, Balances(s.ops), Balances(t.ops), g, change);
    forall m | m in t.modules
      ensures t.modules[m].predictableBalance as real == Sum(t.order, Within(m, Balances(t.ops)))
      ensures t.modules[m].totalStake == Sum(t.order, Within(m, Stakes(t.ops)))
    {
      EjectedModuleTotals(s, g, m);
    }
  }

  lemma {:induction false} EjectedKeepsOwnFigures(s: Snapshot, g: Gid, pending: seq<PendingValidator>)
    requires Shape(s) && OwnFiguresFresh(s, pending) && g in s.ops && s.exitable[g] != []
    ensures OwnFiguresFresh(Ejected(s, g), pending)
  {
    assert InboundBalances(s.exitable[g])
      == PredictableInboundBalance(s.exitable[g][0]) + InboundBalances(s.exitable[g][1..]);
  }

  lemma {:induction false} EjectedKeepsStakes(s: Snapshot, g: Gid)
    requires Shape(s) && LinksOk(s) && StakesFresh(s) && g in s.ops && s.exitable[g] != []
    ensures StakesFresh(Ejected(s, g))
  {
    forall h | h in s.ops ensures Ejected(s, g).ops[h].totalStake == ExpectedStake(Ejected(s, g), h) {
      StakeAfterEjection(s, g, h);
    }
  }

  /** The main invariant of a run: an ejection leaves every figure equal to its fresh recomputation. */
  lemma {:induction false} EjectedKeepsFresh(s: Snapshot, g: Gid, pending: seq<PendingValidator>)
    requires Fresh(s, pending) && g in s.ops && s.exitable[g] != []
    ensures Fresh(Ejected(s, g), pending)
  {
    hide LinksOk, TotalsFresh, StakesFresh, OwnFiguresFresh, Distinct;
    EjectedKeepsLinks(s, g);
    EjectedKeepsTotals(s, g);
    EjectedKeepsOwnFigures(s, g, pending);
    EjectedKeepsStakes(s, g);
  }

  lemma {:induction false} EjectedKeepsWeights(s: Snapshot, g: Gid)
    requires Shape(s) && WeightsFresh(s) && g in s.ops && s.exitable[g] != []
    ensures WeightsFresh(Ejected(s, g))
  {
    var t := Ejected(s, g);
    forall m | m in t.modules ensures t.modules[m].totalWeight == Sum(t.order, Within(m, Weights(t.ops))) {
      SumAgrees(s.order, Within(m, Weights(s.ops)), Within(m, Weights(t.ops)));
    }
  }
}
