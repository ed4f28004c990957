/** The ejector's loop over the exit iterator: how many validators are requested to exit, and which. */
module Ejector {
  import opened Wrappers
  import opened ValidatorState
  import opened ExitOrder
  import opened ExitSelection
  import opened ExitOrderIterator
  import opened ExitFigures

  const GWEI_TO_WEI := 1_000_000_000

  datatype EjectorError = ZeroTotalWeight

  function InboundTotal(ejections: seq<Ejection>): nat {
    if ejections == [] then 0
    else
      var last := ejections[|ejections| - 1];
      InboundTotal(ejections[..|ejections| - 1]) + PredictableInboundBalance(last.validator)
  }

  /** Every validator counts with what it brings in: all it has, up to 32 ETH or, compounding, 2048. */
  lemma {:induction false} InboundTotalAddsUp(xs: seq<Ejection>, ys: seq<Ejection>, e: Ejection)
    ensures InboundTotal(xs + ys) == InboundTotal(xs) + InboundTotal(ys)
    ensures var v := e.validator;
      var all := v.balance + Total(v.pendingTopups) + Total(v.consolidatingAsTarget);
      InboundTotal([e]) == if all < Maximum(v.state) then all else Maximum(v.state)
    decreases |ys|
  {
    if ys == [] {
      assert xs + ys == xs;
    } else {
      InboundTotalAddsUp(xs, ys[..|ys| - 1], e);
      assert (xs + ys)[..|xs + ys| - 1] == xs + ys[..|ys| - 1];
    }
    assert [e][..0] == [];
    InboundInFigures(e.validator);
  }

  /** The validators ejected so far, and what `predicted` expects until they are out, cover the demand. */
  predicate Covers(ejections: seq<Ejection>, toWithdraw: nat, predicted: nat -> int) {
    predicted(InboundTotal(ejections)) + InboundTotal(ejections) * 1_000_000_000 >= toWithdraw
  }

  predicate NothingNeeded(toWithdraw: nat, predicted: nat -> int) {
    toWithdraw == 0 || toWithdraw <= predicted(0)
  }

  /** Why the main loop stops after `main`, the iterator then being at `s` with `balance` counted. */
  ghost predicate MainLoopDone(
      main: seq<Ejection>, s: Snapshot, t: Snapshot, balance': nat, limit: nat,
      toWithdraw: nat, predicted: nat -> int)
    requires Shape(s)
  {
    && (forall k :: 0 < k < |main| ==> !Covers(main[..k], toWithdraw, predicted))
    && (if NothingNeeded(toWithdraw, predicted) then main == [] && t == s && balance' == ExitBalance(main)
        else if main != [] && Covers(main, toWithdraw, predicted) then t == s && balance' == ExitBalance(main)
        else NextOutcome(s, ExitBalance(main), limit, t, balance', StopIteration))
  }

  lemma {:induction false} YieldsExtendIterator(states: seq<Snapshot>, ejections: seq<Ejection>, g: Gid, v: LidoValidator)
    requires YieldsOf(states, ejections) && IsIteratorRun(states, Picks(ejections))
    requires Shape(states[|ejections|]) && Weighted(states[|ejections|]) && IsNext(states[|ejections|], g)
    requires v == states[|ejections|].exitable[g][0]
    ensures var more, longer := states + [Ejected(states[|ejections|], g)], ejections + [Ejection(g, v)];
      YieldsOf(more, longer) && IsIteratorRun(more, Picks(longer))
  {
    hide Ejected, KeyOf;
    YieldsExtend(states, ejections, g, v);
    var more, longer := states + [Ejected(states[|ejections|], g)], ejections + [Ejection(g, v)];
    forall i | 0 <= i < |longer| ensures Shape(more[i]) && Weighted(more[i]) && IsNext(more[i], Picks(longer)[i]) {
      if i < |ejections| { assert Picks(longer)[i] == Picks(ejections)[i]; }
    }
  }

  /** `result` was yielded by an iterator run from `start` and stays within the limit. */
  ghost predicate MainRun(states: seq<Snapshot>, result: seq<Ejection>, start: Snapshot, limit: nat) {
    && |states| == |result| + 1 && states[0] == start && Shape(states[|result|])
    && YieldsOf(states, result) && IsIteratorRun(states, Picks(result)) && ExitBalance(result) <= limit
  }

  lemma {:induction false} MainRunStarts(s: Snapshot, limit: nat)
    requires Shape(s)
    ensures MainRun([s], [], s, limit)
  {
    EmptyRun(s);
  }

  lemma {:induction false} StepDropsRemaining(
      s: Snapshot, balance: nat, limit: nat, t: Snapshot, balance': nat, r: NextResult)
    requires Shape(s) && Sums.Distinct(s.order) && r.Yield? && NextOutcome(s, balance, limit, t, balance', r)
    ensures Remaining(t.order, t.exitable) < Remaining(s.order, s.exitable)
    ensures Weighted(t)
  {
    hide KeyOf;
    RemainingDrops(s.order, s.exitable, r.gid);
  }

  /** A step that yields extends the run. */
  lemma {:induction false} MainRunStep(
      states: seq<Snapshot>, result: seq<Ejection>, start: Snapshot, limit: nat, t: Snapshot, balance': nat, r: NextResult)
    requires MainRun(states, result, start, limit) && r.Yield?
    requires Sums.Distinct(states[|result|].order) && Shape(t)
    requires NextOutcome(states[|result|], ExitBalance(result), limit, t, balance', r)
    ensures MainRun(states + [t], result + [Ejection(r.gid, r.validator)], start, limit)
    ensures balance' == ExitBalance(result + [Ejection(r.gid, r.validator)])
    ensures Remaining(t.order, t.exitable) < Remaining(states[|result|].order, states[|result|].exitable)
    ensures Weighted(t)
  {
    hide KeyOf, Sums.Distinct, Ejected, YieldsOf, IsIteratorRun, Remaining;
    StepDropsRemaining(states[|result|], ExitBalance(result), limit, t, balance', r);
    YieldsExtendIterator(states, result, r.gid, r.validator);
    ExitBalanceStep(result, Ejection(r.gid, r.validator));
  }

  ghost predicate NotYetCovered(result: seq<Ejection>, toWithdraw: nat, predicted: nat -> int) {
    forall k :: 0 < k <= |result| ==> !Covers(result[..k], toWithdraw, predicted)
  }

  lemma {:induction false} OneMore(result: seq<Ejection>, e: Ejection, toWithdraw: nat, predicted: nat -> int)
    requires NotYetCovered(result, toWithdraw, predicted)
    ensures InboundTotal(result + [e]) == InboundTotal(result) + PredictableInboundBalance(e.validator)
    ensures forall k :: 0 < k < |result + [e]| ==> !Covers((result + [e])[..k], toWithdraw, predicted)
    ensures !Covers(result + [e], toWithdraw, predicted) ==> NotYetCovered(result + [e], toWithdraw, predicted)
  {
    assert (result + [e])[..|result|] == result;
    assert (result + [e])[..|result + [e]|] == result + [e];
    forall k | 0 < k < |result + [e]| ensures !Covers((result + [e])[..k], toWithdraw, predicted) {
      assert (result + [e])[..k] == result[..k];
    }
  }

  /** Running the iterator until the demand is covered or the iterator stops. */
  method EjectForDemand(it: ValidatorExitIterator, toWithdraw: nat, predicted: nat -> int)
    returns (r: Result<seq<Ejection>, EjectorError>, ghost states: seq<Snapshot>)
    requires it.Valid() && it.maxCurrentExitBalance == 0
    modifies it
    ensures it.Valid()
    ensures r.Success? ==>
      && MainRun(states, r.value, old(it.State()), it.exitLimit)
      && MainLoopDone(r.value, states[|r.value|], it.State(), it.maxCurrentExitBalance, it.exitLimit,
           toWithdraw, predicted)
    ensures Weighted(old(it.State())) || NothingNeeded(toWithdraw, predicted) ==> r.Success?
  {
    hide LinksOk, MainRun, NextOutcome, NotYetCovered, Sums.Distinct, Remaining;
    var result: seq<Ejection> := [];
    states := [it.State()];
    MainRunStarts(it.State(), it.exitLimit);
    if toWithdraw == 0 || toWithdraw <= predicted(0) {
      return Success(result), states;
    }
    var total := 0;
    StartUncovered(toWithdraw, predicted);
    while true
      invariant it.Valid() && |states| == |result| + 1 && states[|result|] == it.State()
      invariant MainRun(states, result, old(it.State()), it.exitLimit)
      invariant it.maxCurrentExitBalance == ExitBalance(result)
      invariant total == InboundTotal(result) && NotYetCovered(result, toWithdraw, predicted)
      invariant Weighted(old(it.State())) ==> Weighted(it.State())
      decreases Remaining(it.order, it.exitableValidators)
    {
      var step := it.Next();
      match step {
        case DivisionByZero =>
          ZeroWeightStops(states[|result|], ExitBalance(result), it.exitLimit, it.State(), it.maxCurrentExitBalance);
          return Failure(ZeroTotalWeight), states;
        case StopIteration =>
          LoopStops(result, states[|result|], it.State(), it.maxCurrentExitBalance, it.exitLimit, toWithdraw, predicted);
          return Success(result), states;
        case Yield(gid, v) =>
          MainRunStep(states, result, old(it.State()), it.exitLimit, it.State(), it.maxCurrentExitBalance, step);
          OneMore(result, Ejection(gid, v), toWithdraw, predicted);
          result := result + [Ejection(gid, v)];
          states := states + [it.State()];
          total := total + PredictableInboundBalance(v);
          if predicted(total) + total * GWEI_TO_WEI >= toWithdraw {
            return Success(result), states;
          }
      }
    }
  }

  lemma {:induction false} StartUncovered(toWithdraw: nat, predicted: nat -> int)
    ensures NotYetCovered([], toWithdraw, predicted)
  {
  }

  lemma {:induction false} ZeroWeightStops(s: Snapshot, balance: nat, limit: nat, t: Snapshot, balance': nat)
    requires Shape(s) && NextOutcome(s, balance, limit, t, balance', DivisionByZero)
    ensures !Weighted(s)
  {
  }

  lemma {:induction false} LoopStops(
      main: seq<Ejection>, s: Snapshot, t: Snapshot, balance': nat, limit: nat, toWithdraw: nat, predicted: nat -> int)
    requires Shape(s) && NotYetCovered(main, toWithdraw, predicted) && !NothingNeeded(toWithdraw, predicted)
    requires NextOutcome(s, ExitBalance(main), limit, t, balance', StopIteration)
    ensures MainLoopDone(main, s, t, balance', limit, toWithdraw, predicted)
  {
    assert main[..|main|] == main;
  }

  /** After the main loop the iterator is where its run ended, or the limit has been passed. */
  lemma {:induction false} MainLoopLeaves(
      main: seq<Ejection>, s: Snapshot, t: Snapshot, balance': nat, limit: nat, toWithdraw: nat, predicted: nat -> int)
    requires Shape(s) && MainLoopDone(main, s, t, balance', limit, toWithdraw, predicted)
    ensures (t == s && balance' == ExitBalance(main)) || balance' > limit
  {
    hide Ejected, IsNext;
  }

  /** A run that ends without a division by zero was possible from the start. */
  lemma {:induction false} MainRunWeighted(
      states: seq<Snapshot>, main: seq<Ejection>, start: Snapshot, t: Snapshot, balance': nat, limit: nat,
      toWithdraw: nat, predicted: nat -> int)
    requires MainRun(states, main, start, limit)
    requires MainLoopDone(main, states[|main|], t, balance', limit, toWithdraw, predicted)
    ensures Weighted(start) || NothingNeeded(toWithdraw, predicted)
  {
    hide Ejected, IsNext, LimitHit, Exhausted, Weighted;
  }

  // ----- Joining the two runs -----

  lemma {:induction false} ExitBalanceOfBoth(xs: seq<Ejection>, ys: seq<Ejection>)
    ensures ExitBalance(xs + ys) == ExitBalance(xs) + ExitBalance(ys)
    decreases |ys|
  {
    if ys == [] {
      assert xs + ys == xs;
    } else {
      var front := ys[..|ys| - 1];
      ExitBalanceOfBoth(xs, front);
      assert (xs + ys)[..|xs + ys| - 1] == xs + front;
    }
  }

  /** The forced run starts where the main run ended: together they are one ejection run. */
  lemma {:induction false} RunsJoin(
      states: seq<Snapshot>, xs: seq<Ejection>, more: seq<Snapshot>, ys: seq<Ejection>)
    requires |states| == |xs| + 1 && |more| == |ys| + 1 && states[|xs|] == more[0]
    requires YieldsOf(states, xs) && YieldsOf(more, ys)
    ensures YieldsOf(states + more[1..], xs + ys)
    ensures (states + more[1..])[..|xs| + 1] == states && (states + more[1..])[|xs|..] == more
    ensures Picks((xs + ys)[..|xs|]) == Picks(xs) && Picks((xs + ys)[|xs|..]) == Picks(ys)
  {
    hide Ejected;
    var all, both := states + more[1..], xs + ys;
    assert both[..|xs|] == xs && both[|xs|..] == ys;
    forall i | 0 <= i < |both|
      ensures CanExit(all[i], Picks(both)[i]) && all[i + 1] == Ejected(all[i], Picks(both)[i])
      ensures both[i].validator == Yielded(all, Picks(both), i)
    {
      if i < |xs| {
        assert Picks(both)[i] == Picks(xs)[i] && all[i] == states[i] && all[i + 1] == states[i + 1];
        assert xs[i].validator == Yielded(states, Picks(xs), i);
      } else {
        var k := i - |xs|;
        assert Picks(both)[i] == Picks(ys)[k] && all[i] == more[k] && all[i + 1] == more[k + 1];
        assert ys[k].validator == Yielded(more, Picks(ys), k);
      }
    }
  }

  lemma {:induction false} YieldedOnce(states: seq<Snapshot>, ejections: seq<Ejection>)
    requires YieldsOf(states, ejections) && ValidatorsDistinct(states[0])
    ensures forall i, j :: 0 <= i < j < |ejections| ==>
      ejections[i].validator.index != ejections[j].validator.index
  {
    forall i, j | 0 <= i < j < |ejections|
      ensures ejections[i].validator.index != ejections[j].validator.index
    {
      EjectedOnceAndAscending(states, Picks(ejections), i, j);
    }
  }

  /** A run of the iterator followed by a run of forced exits, `n` validators into the list. */
  ghost predicate TwoPhases(states: seq<Snapshot>, result: seq<Ejection>, n: nat) {
    && n <= |result| && |states| == |result| + 1 && YieldsOf(states, result)
    && IsIteratorRun(states[..n + 1], Picks(result[..n]))
    && IsForcedRun(states[n..], Picks(result[n..]))
  }

  lemma {:induction false} MainAlone(states: seq<Snapshot>, main: seq<Ejection>, start: Snapshot, limit: nat)
    requires MainRun(states, main, start, limit)
    ensures TwoPhases(states, main, |main|)
  {
    assert states[..|main| + 1] == states && main[..|main|] == main;
    assert states[|main|..] == [states[|main|]] && main[|main|..] == [];
    EmptyRun(states[|main|]);
  }

  lemma {:induction false} MainThenForced(
      states: seq<Snapshot>, main: seq<Ejection>, start: Snapshot, limit: nat,
      more: seq<Snapshot>, forced: seq<Ejection>)
    requires MainRun(states, main, start, limit)
    requires |more| == |forced| + 1 && more[0] == states[|main|]
    requires YieldsOf(more, forced) && IsForcedRun(more, Picks(forced))
    ensures TwoPhases(states + more[1..], main + forced, |main|)
  {
    hide YieldsOf, IsIteratorRun, IsForcedRun;
    RunsJoin(states, main, more, forced);
  }

  /** The next pick is there, but with it the list would pass the limit. */
  ghost predicate NextPassesLimit(s: Snapshot, balance: nat, limit: nat)
    requires Shape(s)
  {
    Weighted(s) && exists g :: IsNext(s, g) && balance + GetMaxEffectiveBalance(s.exitable[g][0].state) > limit
  }

  ghost predicate NextForcedPassesLimit(s: Snapshot, balance: nat, limit: nat)
    requires Shape(s)
  {
    exists g :: IsNextForced(s, g) && balance + GetMaxEffectiveBalance(s.exitable[g][0].state) > limit
  }

  predicate DemandCovered(main: seq<Ejection>, toWithdraw: nat, predicted: nat -> int) {
    NothingNeeded(toWithdraw, predicted) || (main != [] && Covers(main, toWithdraw, predicted))
  }

  /**
     The main part stops as soon as the demand is covered. It stops earlier only when nobody is left to exit, or
     when its own next pick would pass the limit.
   */
  ghost predicate DemandServed(
      main: seq<Ejection>, s: Snapshot, limit: nat, toWithdraw: nat, predicted: nat -> int)
    requires Shape(s)
  {
    && (NothingNeeded(toWithdraw, predicted) ==> main == [])
    && (forall k :: 0 < k < |main| ==> !Covers(main[..k], toWithdraw, predicted))
    && (DemandCovered(main, toWithdraw, predicted)
        || NextPassesLimit(s, ExitBalance(main), limit) || forall g :: !CanExit(s, g))
  }

  /**
     How a list of `result`, the first `n` of it the main part, leaves the iterator at `t` with `counted`. Within
     the limit exactly the list has been ejected and counted, and nobody is left above a forced target. Past the
     limit it was the next pick of the part that ended the list.
   */
  ghost predicate ListEnds(
      result: seq<Ejection>, n: nat, s: Snapshot, t: Snapshot, counted: nat, limit: nat,
      toWithdraw: nat, predicted: nat -> int)
    requires n <= |result| && Shape(s)
  {
    if counted <= limit then
      t == s && counted == ExitBalance(result) && forall g :: !CanBeForced(s, g)
    else
      || (n == |result| && !DemandCovered(result, toWithdraw, predicted)
          && NextPassesLimit(s, ExitBalance(result), limit))
      || NextForcedPassesLimit(s, ExitBalance(result), limit)
  }

  lemma {:induction false} LoopServesDemand(
      main: seq<Ejection>, s: Snapshot, t: Snapshot, counted: nat, limit: nat, toWithdraw: nat, predicted: nat -> int)
    requires Shape(s) && MainLoopDone(main, s, t, counted, limit, toWithdraw, predicted)
    requires ExitBalance(main) <= limit
    ensures DemandServed(main, s, limit, toWithdraw, predicted)
    ensures counted > limit ==>
      !DemandCovered(main, toWithdraw, predicted) && NextPassesLimit(s, ExitBalance(main), limit)
  {
    hide Ejected, IsNext, CanExit;
  }

  /** The main part stopped at the limit: the forced part adds nothing. */
  lemma {:induction false} EndsAtMainLimit(
      main: seq<Ejection>, s: Snapshot, t: Snapshot, counted: nat, limit: nat, toWithdraw: nat, predicted: nat -> int)
    requires Shape(s) && NextPassesLimit(s, ExitBalance(main), limit)
    requires !DemandCovered(main, toWithdraw, predicted) && counted > limit
    ensures ListEnds(main, |main|, s, t, counted, limit, toWithdraw, predicted)
  {
  }

  lemma {:induction false} EndsWithForced(
      result: seq<Ejection>, n: nat, s: Snapshot, t: Snapshot, counted: nat, limit: nat,
      toWithdraw: nat, predicted: nat -> int)
    requires n <= |result| && Shape(s) && ExitBalance(result) <= limit
    requires ForcedOutcome(s, ExitBalance(result), limit, t, counted, StopIteration)
    ensures ListEnds(result, n, s, t, counted, limit, toWithdraw, predicted)
  {
    hide Ejected, IsNextForced, IsNext, CanBeForced;
  }

  /** The counter never goes back. */
  lemma {:induction false} ForcedCounts(s: Snapshot, balance: nat, limit: nat, t: Snapshot, counted: nat)
    requires Shape(s) && ForcedOutcome(s, balance, limit, t, counted, StopIteration)
    ensures balance <= counted
  {
    hide Ejected, IsNextForced, CanBeForced;
  }

  /**
     The whole list of validators to eject: first the run that covers the demand, then the forced exits that
     remain. It stays within the limit, and every validator is named once.
   */
  method GetValidatorsToEject(it: ValidatorExitIterator, toWithdraw: nat, predicted: nat -> int)
    returns (r: Result<seq<Ejection>, EjectorError>, ghost states: seq<Snapshot>, ghost n: nat)
    requires it.Valid() && it.maxCurrentExitBalance == 0 && ValidatorsDistinct(it.State())
    modifies it
    ensures r.Success? <==> Weighted(old(it.State())) || NothingNeeded(toWithdraw, predicted)
    ensures r.Success? ==> ExitBalance(r.value) <= it.exitLimit
    ensures r.Success? ==> forall i, j :: 0 <= i < j < |r.value| ==>
      r.value[i].validator.index != r.value[j].validator.index
    ensures r.Success? ==> TwoPhases(states, r.value, n) && states[0] == old(it.State())
    ensures r.Success? ==> Shape(states[n]) && Shape(states[|r.value|])
    ensures r.Success? ==> DemandServed(r.value[..n], states[n], it.exitLimit, toWithdraw, predicted)
    ensures r.Success? ==> ListEnds(r.value, n, states[|r.value|], it.State(), it.maxCurrentExitBalance, it.exitLimit,
      toWithdraw, predicted)
  {
    hide LinksOk, Sums.Distinct, Remaining, MainLoopDone, IsForcedRun, IsIteratorRun, YieldsOf, DemandServed,
      ForcedOutcome, CanBeForced, ValidatorsDistinct, NothingNeeded, DemandCovered, ListEnds, NextPassesLimit;
    ghost var start := it.State();
    var main, mainStates := EjectForDemand(it, toWithdraw, predicted);
    if main.Failure? {
      return main, mainStates, 0;
    }
    n := |main.value|;
    ghost var t, balance := it.State(), it.maxCurrentExitBalance;
    MainRunWeighted(mainStates, main.value, start, t, balance, it.exitLimit, toWithdraw, predicted);
    MainLoopLeaves(main.value, mainStates[n], t, balance, it.exitLimit, toWithdraw, predicted);
    LoopServesDemand(main.value, mainStates[n], t, balance, it.exitLimit, toWithdraw, predicted);
    var forced, forcedStates := it.GetRemainingForcedValidators();
    r := Success(main.value + forced);
    if balance > it.exitLimit {
      assert forced == [];
      assert r.value == main.value;
      states := mainStates;
      MainAlone(mainStates, main.value, start, it.exitLimit);
      ForcedCounts(forcedStates[0], balance + ExitBalance(forced), it.exitLimit, it.State(), it.maxCurrentExitBalance);
      EndsAtMainLimit(main.value, mainStates[n], it.State(), it.maxCurrentExitBalance, it.exitLimit,
        toWithdraw, predicted);
    } else {
      states := mainStates + forcedStates[1..];
      MainThenForced(mainStates, main.value, start, it.exitLimit, forcedStates, forced);
      ExitBalanceOfBoth(main.value, forced);
      assert states[|r.value|] == forcedStates[|forced|];
      EndsWithForced(r.value, n, states[|r.value|], it.State(), it.maxCurrentExitBalance, it.exitLimit,
        toWithdraw, predicted);
    }
    assert r.value[..n] == main.value;
    assert YieldsOf(states, r.value);
    YieldedOnce(states, r.value);
  }
}
