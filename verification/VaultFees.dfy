/** The liquidity fee of a vault: replaying its events backward in time equals accruing the fee second by second. */
module VaultFees {
  import opened Wrappers
  import opened Arithmetic
  import opened Sorting

  const SECONDS_IN_YEAR := 31557600

  type Address = nat

  datatype EventKind =
    | FeesUpdated(preLiquidityFeeBp: nat, liquidityFeeBp: nat)
    | Minted(amountOfShares: nat)
    | Burned(amountOfShares: nat)
    | Rebalanced(sharesBurned: nat)
    | WrittenOff(badDebtShares: nat)
    | Socialized(vaultDonor: Address, vaultAcceptor: Address, badDebtShares: nat)
    | Connected(connectedFeeBp: nat)

  datatype Event = Event(blockNumber: nat, logIndex: nat, kind: EventKind)

  datatype FeeError = MissingTimestamp | NegativeInterval | SharesAtReconnect

  /** The vault, the interval of the report, and what converts shares to a fee. */
  datatype Report = Report(
    vault: Address, prevTimestamp: int, currentTimestamp: int,
    totalEther: nat, totalShares: nat, coreApr: real, timestamps: map<nat, int>)
  {
    ghost predicate Valid() {
      totalShares > 0 && prevTimestamp <= currentTimestamp
    }
  }

  function GetStethByShares(report: Report, shares: int): real
    requires report.totalShares > 0
  {
    shares as real * report.totalEther as real / report.totalShares as real
  }

  function CalcFeeValue(value: real, seconds: int, coreApr: real, feeBp: int): real {
    value * seconds as real * coreApr * feeBp as real / (SECONDS_IN_YEAR * TOTAL_BASIS_POINTS) as real
  }

  /** The fee of holding some shares for some time. */
  function Fee(report: Report, shares: int, feeBp: int, seconds: int): real
    requires report.totalShares > 0
  {
    CalcFeeValue(GetStethByShares(report, shares), seconds, report.coreApr, feeBp)
  }

  // ----- Backward in time -----

  /** Undoes an event. */
  function ApplyEvent(event: Event, vault: Address, shares: int, feeBp: int): (int, int) {
    match event.kind
    case FeesUpdated(pre, _) => (shares, pre)
    case Minted(amount) => (shares - amount, feeBp)
    case Burned(amount) => (shares + amount, feeBp)
    case Rebalanced(burned) => (shares + burned, feeBp)
    case WrittenOff(badDebt) => (shares + badDebt, feeBp)
    case Socialized(donor, _, badDebt) => (if vault == donor then shares + badDebt else shares - badDebt, feeBp)
    case Connected(_) => (shares, feeBp)
  }

  /** The order of the replay: by block and log index, the latest first. */
  function Later(): (Event, Event) -> bool {
    (a: Event, b: Event) =>
      a.blockNumber > b.blockNumber || (a.blockNumber == b.blockNumber && a.logIndex >= b.logIndex)
  }

  /** What one event of the replay leads to: the end of it, or some fee and the state before the event. */
  datatype Turn = Stop(result: Result<(real, int), FeeError>) | Onward(fee: real, shares: int, feeBp: int, boundary: int)

  function TakeTurn(report: Report, event: Event, shares: int, feeBp: int, boundary: int): Turn
    requires report.totalShares > 0
  {
    if event.blockNumber !in report.timestamps then Stop(Failure(MissingTimestamp))
    else
      var timestamp := report.timestamps[event.blockNumber];
      if boundary - timestamp < 0 then Stop(Failure(NegativeInterval))
      else
        var accrued := Fee(report, shares, feeBp, boundary - timestamp);
        if event.kind.Connected? then
          Stop(if shares != 0 then Failure(SharesAtReconnect) else Success((accrued, shares)))
        else
          var (s, f) := ApplyEvent(event, report.vault, shares, feeBp);
          Onward(accrued, s, f, timestamp)
  }

  function PlusFee(fee: real, r: Result<(real, int), FeeError>): Result<(real, int), FeeError> {
    match r
    case Success((more, shares)) => Success((fee + more, shares))
    case Failure(e) => Failure(e)
  }

  /** The replay of events given latest first, back from `boundary`. */
  function Replay(report: Report, events: seq<Event>, shares: int, feeBp: int, boundary: int)
    : Result<(real, int), FeeError>
    requires report.totalShares > 0
  {
    if events == [] then
      if boundary - report.prevTimestamp < 0 then Failure(NegativeInterval)
      else Success((Fee(report, shares, feeBp, boundary - report.prevTimestamp), shares))
    else
      match TakeTurn(report, events[0], shares, feeBp, boundary)
      case Stop(result) => result
      case Onward(fee, s, f, timestamp) => PlusFee(fee, Replay(report, events[1..], s, f, timestamp))
  }

  /** The liability shares an event puts on the vault: minting, and bad debt socialized from another vault. */
  function Added(event: Event, vault: Address): nat {
    match event.kind
    case Minted(amount) => amount
    case Socialized(donor, _, badDebt) => if vault == donor then 0 else badDebt
    case _ => 0
  }

  /** The shares it takes off: burning, rebalancing, and bad debt written off or socialized by the vault. */
  function Removed(event: Event, vault: Address): nat {
    match event.kind
    case Burned(amount) => amount
    case Rebalanced(burned) => burned
    case WrittenOff(badDebt) => badDebt
    case Socialized(donor, _, badDebt) => if vault == donor then badDebt else 0
    case _ => 0
  }

  function AllAdded(events: seq<Event>, vault: Address): nat {
    if events == [] then 0 else Added(events[0], vault) + AllAdded(events[1..], vault)
  }

  function AllRemoved(events: seq<Event>, vault: Address): nat {
    if events == [] then 0 else Removed(events[0], vault) + AllRemoved(events[1..], vault)
  }

  /** Shares are conserved: what the replay comes back to, with all added and without all removed, is the present. */
  lemma {:induction false} ReplayConservesShares(
      report: Report, events: seq<Event>, shares: int, feeBp: int, boundary: int)
    requires report.totalShares > 0 && forall i :: 0 <= i < |events| ==> !events[i].kind.Connected?
    requires Replay(report, events, shares, feeBp, boundary).Success?
    ensures Replay(report, events, shares, feeBp, boundary).value.1
      + AllAdded(events, report.vault) - AllRemoved(events, report.vault) == shares
  {
    hide Fee;
    if events != [] {
      var turn := TakeTurn(report, events[0], shares, feeBp, boundary);
      ReplayConservesShares(report, events[1..], turn.shares, turn.feeBp, turn.boundary);
    }
  }

  /** The event is known to have happened at or before the boundary. */
  predicate InReach(report: Report, event: Event, boundary: int) {
    event.blockNumber in report.timestamps && report.timestamps[event.blockNumber] <= boundary
  }

  /** Back from `boundary` over an event that found the vault at `s`: what accrued since, second by second, and `s`. */
  ghost function StepBack(report: Report, event: Event, s: VaultState, boundary: int): Turn
    requires report.totalShares > 0 && InReach(report, event, boundary)
  {
    var timestamp := report.timestamps[event.blockNumber];
    var accrued := Accrued(report, [event], s, timestamp, boundary);
    if event.kind.Connected? then Stop(Success((accrued, 0)))
    else Onward(accrued, s.shares, s.feeBp, timestamp)
  }

  lemma {:induction false} TurnIsStepBack(report: Report, event: Event, s: VaultState, boundary: int)
    requires report.totalShares > 0 && InReach(report, event, boundary) && CanHappen(event, s)
    ensures var after := Happen(event, report.vault, s);
      TakeTurn(report, event, after.shares, after.feeBp, boundary) == StepBack(report, event, s, boundary)
  {
    hide Fee, Accrued;
    var timestamp, after := report.timestamps[event.blockNumber], Happen(event, report.vault, s);
    forall t | timestamp <= t < boundary ensures StateAt(report, [event], s, t) == after {
      assert [event][..0] == [];
    }
    QuietAccrual(report, [event], s, timestamp, boundary, after);
  }

  /** One event of the replay: it takes back what the event did, and charges what accrued since. */
  method ProcessEvent(report: Report, event: Event, shares: int, feeBp: int, prevEventTimestamp: int)
    returns (turn: Turn)
    requires report.totalShares > 0
    ensures turn == Stop(Failure(MissingTimestamp)) <==> event.blockNumber !in report.timestamps
    ensures turn == Stop(Failure(NegativeInterval)) <==>
      event.blockNumber in report.timestamps && report.timestamps[event.blockNumber] > prevEventTimestamp
    ensures turn == Stop(Failure(SharesAtReconnect)) <==>
      InReach(report, event, prevEventTimestamp) && event.kind.Connected? && shares != 0
    ensures InReach(report, event, prevEventTimestamp) ==>
      forall s: VaultState :: CanHappen(event, s) && Happen(event, report.vault, s) == VaultState(shares, feeBp) ==>
        turn == StepBack(report, event, s, prevEventTimestamp)
    ensures turn == TakeTurn(report, event, shares, feeBp, prevEventTimestamp)
  {
    if InReach(report, event, prevEventTimestamp) {
      forall s: VaultState | CanHappen(event, s) && Happen(event, report.vault, s) == VaultState(shares, feeBp)
        ensures TakeTurn(report, event, shares, feeBp, prevEventTimestamp) == StepBack(report, event, s, prevEventTimestamp)
      {
        TurnIsStepBack(report, event, s, prevEventTimestamp);
      }
    }
    hide CalcFeeValue, GetStethByShares, ApplyEvent;
    if event.blockNumber !in report.timestamps {
      return Stop(Failure(MissingTimestamp));
    }
    var eventTimestamp := report.timestamps[event.blockNumber];
    var interval := prevEventTimestamp - eventTimestamp;
    if interval < 0 {
      return Stop(Failure(NegativeInterval));
    }
    var minted := GetStethByShares(report, shares);
    var fee := CalcFeeValue(minted, interval, report.coreApr, feeBp);
    if event.kind.Connected? {
      if shares != 0 {
        return Stop(Failure(SharesAtReconnect));
      }
      return Stop(Success((fee, shares)));
    }
    var applied := ApplyEvent(event, report.vault, shares, feeBp);
    return Onward(fee, applied.0, applied.1, eventTimestamp);
  }

  lemma {:induction false} ReplayTurn(
      report: Report, events: seq<Event>, n: nat, shares: int, feeBp: int, boundary: int, before: real)
    requires report.totalShares > 0 && n < |events|
    ensures var rest := Replay(report, events[n..], shares, feeBp, boundary);
      match TakeTurn(report, events[n], shares, feeBp, boundary)
      case Stop(result) => rest == result
      case Onward(fee, s, f, timestamp) =>
        PlusFee(before, rest) == PlusFee(before + fee, Replay(report, events[n + 1..], s, f, timestamp))
  {
    hide TakeTurn;
    assert events[n..][1..] == events[n + 1..];
  }

  /** `_calculate_liquidity_fee_by_events`. */
  method CalculateLiquidityFeeByEvents(report: Report, liabilityShares: int, liquidityFeeBp: int, vaultEvents: seq<Event>)
    returns (r: Result<(real, int), FeeError>)
    requires report.totalShares > 0
    ensures r == Replay(report, Sort(vaultEvents, Later()), liabilityShares, liquidityFeeBp, report.currentTimestamp)
  {
    hide Fee, TakeTurn, Replay, Sort;
    var vaultLiquidityFee, shares, feeBp := 0.0, liabilityShares, liquidityFeeBp;
    var prevEventTimestamp := report.currentTimestamp;
    var events := Sort(vaultEvents, Later());
    ghost var whole := Replay(report, events, shares, feeBp, prevEventTimestamp);
    assert events[0..] == events;
    for n := 0 to |events|
      invariant whole == PlusFee(vaultLiquidityFee, Replay(report, events[n..], shares, feeBp, prevEventTimestamp))
    {
      ReplayTurn(report, events, n, shares, feeBp, prevEventTimestamp, vaultLiquidityFee);
      var turn := ProcessEvent(report, events[n], shares, feeBp, prevEventTimestamp);
      if turn.Stop? {
        return PlusFee(vaultLiquidityFee, turn.result);
      }
      vaultLiquidityFee := vaultLiquidityFee + turn.fee;
      shares, feeBp, prevEventTimestamp := turn.shares, turn.feeBp, turn.boundary;
    }
    ReplayEnd(report, shares, feeBp, prevEventTimestamp);
    assert events[|events|..] == [];
    var interval := prevEventTimestamp - report.prevTimestamp;
    if interval < 0 {
      return Failure(NegativeInterval);
    }
    return Success((vaultLiquidityFee + Fee(report, shares, feeBp, interval), shares));
  }

  lemma {:induction false} ReplayEnd(report: Report, shares: int, feeBp: int, boundary: int)
    requires report.totalShares > 0
    ensures Replay(report, [], shares, feeBp, boundary) ==
      if boundary - report.prevTimestamp < 0 then Failure(NegativeInterval)
      else Success((Fee(report, shares, feeBp, boundary - report.prevTimestamp), shares))
  {
  }

  // ----- Forward in time -----

  /** The vault between two events. */
  datatype VaultState = VaultState(shares: int, feeBp: int)

  /** What an event does when it happens. */
  function Happen(event: Event, vault: Address, s: VaultState): VaultState {
    match event.kind
    case FeesUpdated(_, fee) => s.(feeBp := fee)
    case Minted(amount) => s.(shares := s.shares + amount)
    case Burned(amount) => s.(shares := s.shares - amount)
    case Rebalanced(burned) => s.(shares := s.shares - burned)
    case WrittenOff(badDebt) => s.(shares := s.shares - badDebt)
    case Socialized(donor, _, badDebt) =>
      s.(shares := if vault == donor then s.shares - badDebt else s.shares + badDebt)
    case Connected(fee) => VaultState(0, fee)
  }

  /** An event can happen: a fee update knows the fee it replaces. */
  predicate CanHappen(event: Event, s: VaultState) {
    event.kind.FeesUpdated? ==> event.kind.preLiquidityFeeBp == s.feeBp
  }

  /** The state after the events, in the order in which they happen. */
  function After(events: seq<Event>, vault: Address, s: VaultState): VaultState {
    if events == [] then s
    else Happen(events[|events| - 1], vault, After(events[..|events| - 1], vault, s))
  }

  predicate IsHistory(events: seq<Event>, vault: Address, s: VaultState) {
    events == [] ||
    (var front := events[..|events| - 1];
     IsHistory(front, vault, s) && CanHappen(events[|events| - 1], After(front, vault, s)))
  }

  predicate Earlier(a: Event, b: Event) {
    a.blockNumber < b.blockNumber || (a.blockNumber == b.blockNumber && a.logIndex < b.logIndex)
  }

  /** In order, inside the interval, with block times that follow the order. */
  ghost predicate InTime(report: Report, events: seq<Event>, boundary: int) {
    && (forall i, j :: 0 <= i < j < |events| ==> Earlier(events[i], events[j]))
    && (forall i :: 0 <= i < |events| ==>
          events[i].blockNumber in report.timestamps
          && report.prevTimestamp <= report.timestamps[events[i].blockNumber] <= boundary)
    && forall i, j :: 0 <= i < j < |events| ==>
         report.timestamps[events[i].blockNumber] <= report.timestamps[events[j].blockNumber]
  }

  /** The state in force during the second that starts at `t`: after every event up to then. */
  ghost function StateAt(report: Report, events: seq<Event>, s: VaultState, t: int): VaultState {
    if events == [] then s
    else
      var front, last := events[..|events| - 1], events[|events| - 1];
      if last.blockNumber in report.timestamps && report.timestamps[last.blockNumber] <= t
      then Happen(last, report.vault, StateAt(report, front, s, t))
      else StateAt(report, front, s, t)
  }

  /** What one second costs: the stETH of the shares, at the annual rate and the fee rate, in a year of seconds. */
  function ChargePerSecond(report: Report, shares: int, feeBp: int): real
    requires report.totalShares > 0
  {
    shares as real * report.totalEther as real * report.coreApr * feeBp as real
      / (report.totalShares as real * 31557600.0 * 10000.0)
  }

  /** The fee accrued second by second from `start` to `end`. */
  ghost function Accrued(report: Report, events: seq<Event>, s: VaultState, start: int, end: int): real
    requires report.totalShares > 0
    decreases end - start
  {
    if end <= start then 0.0
    else
      var state := StateAt(report, events, s, end - 1);
      Accrued(report, events, s, start, end - 1) + ChargePerSecond(report, state.shares, state.feeBp)
  }

  // ----- Accrual over an interval -----

  /** The code's figures for some time, in the report's own. */
  lemma {:induction false} FeeInFull(report: Report, shares: int, feeBp: int, seconds: int)
    requires report.totalShares > 0
    ensures Fee(report, shares, feeBp, seconds) * (report.totalShares as real * 31557600.0 * 10000.0)
      == shares as real * report.totalEther as real * seconds as real * report.coreApr * feeBp as real
  {
    var steth, scale := GetStethByShares(report, shares), (SECONDS_IN_YEAR * TOTAL_BASIS_POINTS) as real;
    assert scale == 31557600.0 * 10000.0;
    InFull(shares as real * report.totalEther as real, report.totalShares as real, steth,
      seconds as real, report.coreApr, feeBp as real, scale, Fee(report, shares, feeBp, seconds));
  }

  lemma {:induction false} InFull(
      ether: real, shares: real, steth: real, seconds: real, apr: real, feeBp: real, scale: real, fee: real)
    requires shares > 0.0 && scale > 0.0
    requires steth == ether / shares && fee == steth * seconds * apr * feeBp / scale
    ensures fee * (shares * scale) == ether * seconds * apr * feeBp
  {
    assert steth * shares == ether;
    assert fee * scale == steth * seconds * apr * feeBp;
    assert fee * (shares * scale) == (fee * scale) * shares;
    assert steth * seconds * apr * feeBp * shares == (steth * shares) * seconds * apr * feeBp;
  }

  /** So the fee grows by the same charge every second. */
  lemma {:induction false} FeeOneSecond(report: Report, shares: int, feeBp: int, seconds: int)
    requires report.totalShares > 0
    ensures Fee(report, shares, feeBp, seconds)
      == Fee(report, shares, feeBp, seconds - 1) + ChargePerSecond(report, shares, feeBp)
    ensures Fee(report, shares, feeBp, 0) == 0.0
  {
    hide Fee;
    FeeInFull(report, shares, feeBp, seconds);
    FeeInFull(report, shares, feeBp, seconds - 1);
    FeeInFull(report, shares, feeBp, 0);
    OneMoreSecond(report.totalShares as real * 31557600.0 * 10000.0, shares as real * report.totalEther as real,
      seconds as real, report.coreApr, feeBp as real,
      Fee(report, shares, feeBp, seconds), Fee(report, shares, feeBp, seconds - 1), Fee(report, shares, feeBp, 0));
  }

  lemma {:induction false} OneMoreSecond(
      scale: real, ether: real, seconds: real, apr: real, feeBp: real, fee: real, before: real, none: real)
    requires scale > 0.0 && fee * scale == ether * seconds * apr * feeBp
    requires before * scale == ether * (seconds - 1.0) * apr * feeBp && none * scale == ether * 0.0 * apr * feeBp
    ensures fee == before + ether * apr * feeBp / scale && none == 0.0
  {
    var charge := ether * apr * feeBp / scale;
    assert charge * scale == ether * apr * feeBp;
    assert ether * seconds * apr * feeBp == seconds * (ether * apr * feeBp);
    assert ether * (seconds - 1.0) * apr * feeBp == (seconds - 1.0) * (ether * apr * feeBp);
    assert (fee - before - charge) * scale == 0.0;
    assert none * scale == 0.0;
  }

  /** A full year at the full fee rate yields the annual rate of the value. */
  lemma {:induction false} FeeOfAYear(value: real, coreApr: real)
    ensures CalcFeeValue(value, SECONDS_IN_YEAR, coreApr, TOTAL_BASIS_POINTS) == value * coreApr
  {
    var scale := (SECONDS_IN_YEAR * TOTAL_BASIS_POINTS) as real;
    assert value * SECONDS_IN_YEAR as real * coreApr * TOTAL_BASIS_POINTS as real == (value * coreApr) * scale;
  }

  /** While nothing happens, the fee of the interval is what accrues second by second. */
  lemma {:induction false} QuietAccrual(
      report: Report, events: seq<Event>, s: VaultState, start: int, end: int, state: VaultState)
    requires report.totalShares > 0 && start <= end
    requires forall t :: start <= t < end ==> StateAt(report, events, s, t) == state
    ensures Accrued(report, events, s, start, end) == Fee(report, state.shares, state.feeBp, end - start)
    decreases end - start
  {
    hide Fee, StateAt;
    FeeOneSecond(report, state.shares, state.feeBp, end - start);
    if start < end {
      assert StateAt(report, events, s, end - 1) == state;
      QuietAccrual(report, events, s, start, end - 1, state);
    }
  }

  lemma {:induction false} AccrualSplits(
      report: Report, events: seq<Event>, s: VaultState, start: int, mid: int, end: int)
    requires report.totalShares > 0 && start <= mid <= end
    ensures Accrued(report, events, s, start, end)
      == Accrued(report, events, s, start, mid) + Accrued(report, events, s, mid, end)
    decreases end - mid
  {
    hide Fee, StateAt;
    if mid < end { AccrualSplits(report, events, s, start, mid, end - 1); }
  }

  lemma {:induction false} SameAccrual(
      report: Report, a: seq<Event>, b: seq<Event>, s: VaultState, start: int, end: int)
    requires report.totalShares > 0
    requires forall t :: start <= t < end ==> StateAt(report, a, s, t) == StateAt(report, b, s, t)
    ensures Accrued(report, a, s, start, end) == Accrued(report, b, s, start, end)
    decreases end - start
  {
    hide Fee, StateAt;
    if start < end {
      assert StateAt(report, a, s, end - 1) == StateAt(report, b, s, end - 1);
      SameAccrual(report, a, b, s, start, end - 1);
    }
  }

  /** Once all events are over, the state is the final one. */
  lemma {:induction false} FinalState(report: Report, events: seq<Event>, s: VaultState, t: int)
    requires forall i :: 0 <= i < |events| ==>
      events[i].blockNumber in report.timestamps && report.timestamps[events[i].blockNumber] <= t
    ensures StateAt(report, events, s, t) == After(events, report.vault, s)
  {
    hide Happen;
    if events != [] { FinalState(report, events[..|events| - 1], s, t); }
  }

  // ----- The replay is the accrual -----

  /** Where the accrual starts: at the last reconnection, or at the start of the report. */
  function LifeStart(report: Report, events: seq<Event>): int {
    if events == [] then report.prevTimestamp
    else
      var last := events[|events| - 1];
      if last.kind.Connected? && last.blockNumber in report.timestamps then report.timestamps[last.blockNumber]
      else LifeStart(report, events[..|events| - 1])
  }

  predicate Reconnected(events: seq<Event>) {
    exists i :: 0 <= i < |events| && events[i].kind.Connected?
  }

  lemma {:induction false} UndoesWhatHappened(event: Event, vault: Address, s: VaultState)
    requires CanHappen(event, s) && !event.kind.Connected?
    ensures ApplyEvent(event, vault, Happen(event, vault, s).shares, Happen(event, vault, s).feeBp)
      == (s.shares, s.feeBp)
  {
  }

  lemma {:induction false} FrontInTime(report: Report, events: seq<Event>, boundary: int)
    requires InTime(report, events, boundary) && events != []
    ensures var last := events[|events| - 1];
      && last.blockNumber in report.timestamps
      && report.prevTimestamp <= report.timestamps[last.blockNumber] <= boundary
      && InTime(report, events[..|events| - 1], report.timestamps[last.blockNumber])
  {
    var last, front := events[|events| - 1], events[..|events| - 1];
    forall i | 0 <= i < |front|
      ensures front[i].blockNumber in report.timestamps
        && report.prevTimestamp <= report.timestamps[front[i].blockNumber] <= report.timestamps[last.blockNumber]
    {
      assert front[i] == events[i];
    }
  }

  function Reversed(events: seq<Event>): (r: seq<Event>)
    ensures |r| == |events|
    ensures forall i :: 0 <= i < |r| ==> r[i] == events[|events| - 1 - i]
    ensures multiset(r) == multiset(events)
  {
    if events == [] then []
    else
      assert events == events[..|events| - 1] + [events[|events| - 1]];
      [events[|events| - 1]] + Reversed(events[..|events| - 1])
  }

  lemma {:induction false} LifeStartsInTime(report: Report, events: seq<Event>, boundary: int)
    requires InTime(report, events, boundary) && report.prevTimestamp <= boundary
    ensures report.prevTimestamp <= LifeStart(report, events) <= boundary
  {
    if events != [] {
      FrontInTime(report, events, boundary);
      LifeStartsInTime(report, events[..|events| - 1], report.timestamps[events[|events| - 1].blockNumber]);
    }
  }

  lemma {:induction false} ReconnectedFront(events: seq<Event>)
    requires events != []
    ensures Reconnected(events) <==> events[|events| - 1].kind.Connected? || Reconnected(events[..|events| - 1])
  {
    var front := events[..|events| - 1];
    if i :| 0 <= i < |front| && front[i].kind.Connected? { assert events[i].kind.Connected?; }
    if i :| 0 <= i < |events| && events[i].kind.Connected? { if i < |front| { assert front[i].kind.Connected?; } }
  }

  /** The last event splits the accrual: before it the earlier events rule, after it nothing changes any more. */
  lemma {:induction false} AccrualAroundLast(
      report: Report, events: seq<Event>, s: VaultState, start: int, boundary: int)
    requires report.totalShares > 0 && InTime(report, events, boundary) && events != []
    requires start <= report.timestamps[events[|events| - 1].blockNumber]
    ensures var last, front := events[|events| - 1], events[..|events| - 1];
      var timestamp, final := report.timestamps[last.blockNumber], After(events, report.vault, s);
      && Accrued(report, events, s, timestamp, boundary) == Fee(report, final.shares, final.feeBp, boundary - timestamp)
      && Accrued(report, events, s, start, boundary) ==
         Accrued(report, front, s, start, timestamp) + Fee(report, final.shares, final.feeBp, boundary - timestamp)
  {
    hide Fee, After, Accrued;
    var last, front := events[|events| - 1], events[..|events| - 1];
    var timestamp := report.timestamps[last.blockNumber];
    forall t | timestamp <= t < boundary ensures StateAt(report, events, s, t) == After(events, report.vault, s) {
      FrontInTime(report, events, boundary);
      FinalState(report, events, s, t);
    }
    QuietAccrual(report, events, s, timestamp, boundary, After(events, report.vault, s));
    SameAccrual(report, events, front, s, start, timestamp);
    AccrualSplits(report, events, s, start, timestamp, boundary);
  }

  /** Back over a reconnection: the replay stops there. */
  lemma {:induction false} ReplayToReconnection(report: Report, events: seq<Event>, s: VaultState, boundary: int)
    requires report.totalShares > 0 && events != [] && InTime(report, events, boundary)
    requires events[|events| - 1].kind.Connected?
    ensures var final := After(events, report.vault, s);
      Replay(report, Reversed(events), final.shares, final.feeBp, boundary) ==
      Success((Accrued(report, events, s, LifeStart(report, events), boundary), 0))
  {
    hide Fee, Accrued, StateAt;
    FrontInTime(report, events, boundary);
    AccrualAroundLast(report, events, s, report.timestamps[events[|events| - 1].blockNumber], boundary);
  }

  /** Back over any other event: the replay goes on with what was before it. */
  lemma {:induction false} ReplayOverLast(report: Report, events: seq<Event>, s: VaultState, boundary: int)
    requires report.totalShares > 0 && events != [] && InTime(report, events, boundary)
    requires IsHistory(events, report.vault, s) && !events[|events| - 1].kind.Connected?
    ensures var last, front := events[|events| - 1], events[..|events| - 1];
      var final, before := After(events, report.vault, s), After(front, report.vault, s);
      last.blockNumber in report.timestamps
      && Replay(report, Reversed(events), final.shares, final.feeBp, boundary) ==
         PlusFee(Fee(report, final.shares, final.feeBp, boundary - report.timestamps[last.blockNumber]),
           Replay(report, Reversed(front), before.shares, before.feeBp, report.timestamps[last.blockNumber]))
  {
    hide Fee, Happen, ApplyEvent, InTime;
    FrontInTime(report, events, boundary);
    var last, front := events[|events| - 1], events[..|events| - 1];
    assert Reversed(events)[0] == last && Reversed(events)[1..] == Reversed(front);
    UndoesWhatHappened(last, report.vault, After(front, report.vault, s));
  }

  /** The replay of a history, back from any boundary after it. */
  lemma {:induction false} ReplayIsAccrual(report: Report, events: seq<Event>, s: VaultState, boundary: int)
    requires report.totalShares > 0 && report.prevTimestamp <= boundary
    requires IsHistory(events, report.vault, s) && InTime(report, events, boundary)
    ensures var final := After(events, report.vault, s);
      Replay(report, Reversed(events), final.shares, final.feeBp, boundary) ==
      Success((Accrued(report, events, s, LifeStart(report, events), boundary),
               if Reconnected(events) then 0 else s.shares))
    decreases |events|
  {
    hide Fee, Accrued, StateAt, Happen, ApplyEvent, InTime, Reconnected;
    if events == [] {
      QuietAccrual(report, events, s, report.prevTimestamp, boundary, s) by { QuietWithoutEvents(report, s); }
      NeverReconnected();
    } else {
      hide Replay, After;
      var last, front := events[|events| - 1], events[..|events| - 1];
      FrontInTime(report, events, boundary);
      ReconnectedFront(events);
      if last.kind.Connected? {
        ReplayToReconnection(report, events, s, boundary);
      } else {
        var timestamp := report.timestamps[last.blockNumber];
        ReplayOverLast(report, events, s, boundary);
        ReplayIsAccrual(report, front, s, timestamp);
        LifeStartsInTime(report, front, timestamp);
        AccrualAroundLast(report, events, s, LifeStart(report, front), boundary);
      }
    }
  }

  lemma {:induction false} NeverReconnected()
    ensures !Reconnected([])
  {
  }

  lemma {:induction false} QuietWithoutEvents(report: Report, s: VaultState)
    ensures forall t :: StateAt(report, [], s, t) == s
  {
  }

  lemma {:induction false} ReversedInOrder(events: seq<Event>)
    requires forall i, j :: 0 <= i < j < |events| ==> Earlier(events[i], events[j])
    ensures SortedBy(Reversed(events), Later()) && NoTies(Reversed(events), Later())
  {
    var reversed, n := Reversed(events), |events|;
    forall i, j | 0 <= i < j < n
      ensures Later()(reversed[i], reversed[j]) && !Later()(reversed[j], reversed[i])
    {
      assert Earlier(events[n - 1 - j], events[n - 1 - i]);
    }
  }

  lemma {:induction false} LaterIsTotal()
    ensures TotalPreorder(Later())
  {
  }

  /** The order in which the events were fetched does not matter. */
  lemma {:induction false} SortReverses(fetched: seq<Event>, events: seq<Event>)
    requires multiset(fetched) == multiset(events)
    requires forall i, j :: 0 <= i < j < |events| ==> Earlier(events[i], events[j])
    ensures Sort(fetched, Later()) == Reversed(events)
  {
    hide Later, Earlier, TotalPreorder, SortedBy, NoTies;
    LaterIsTotal();
    ReversedInOrder(events);
    SortSorts(fetched, Later());
    SortedArrangementIsUnique(Reversed(events), Sort(fetched, Later()), Later());
  }

  /**
   For every consistent history, fetched in any order, the replay returns the fee accrued second by second since the
   start of the report and the shares at that start; after a reconnection, the fee since the last one and no shares.
   */
  lemma {:induction false} BackwardEqualsForward(
      report: Report, fetched: seq<Event>, events: seq<Event>, s: VaultState)
    requires report.Valid() && multiset(fetched) == multiset(events)
    requires IsHistory(events, report.vault, s) && InTime(report, events, report.currentTimestamp)
    ensures var final := After(events, report.vault, s);
      Replay(report, Sort(fetched, Later()), final.shares, final.feeBp, report.currentTimestamp) ==
      Success((Accrued(report, events, s, LifeStart(report, events), report.currentTimestamp),
               if Reconnected(events) then 0 else s.shares))
  {
    SortReverses(fetched, events);
    ReplayIsAccrual(report, events, s, report.currentTimestamp);
  }

  /** The liquidity part of a vault's fees: without events there is a shortcut, and it agrees with the replay. */
  method CalculateLiquidityFee(report: Report, liabilityShares: int, liquidityFeeBp: int, vaultEvents: seq<Event>)
    returns (r: Result<(real, int), FeeError>)
    requires report.Valid()
    ensures r == Replay(report, Sort(vaultEvents, Later()), liabilityShares, liquidityFeeBp, report.currentTimestamp)
    ensures vaultEvents == [] ==>
      && r.Success? && r.value.1 == liabilityShares
      && (r.value.0 * (report.totalShares as real * 31557600.0 * 10000.0)
          == liabilityShares as real * report.totalEther as real
             * (report.currentTimestamp - report.prevTimestamp) as real * report.coreApr * liquidityFeeBp as real)
  {
    hide CalcFeeValue, GetStethByShares;
    if vaultEvents == [] {
      FeeInFull(report, liabilityShares, liquidityFeeBp, report.currentTimestamp - report.prevTimestamp);
      var interval := report.currentTimestamp - report.prevTimestamp;
      var minted := GetStethByShares(report, liabilityShares);
      ReplayEnd(report, liabilityShares, liquidityFeeBp, report.currentTimestamp);
      return Success((CalcFeeValue(minted, interval, report.coreApr, liquidityFeeBp), liabilityShares));
    }
    r := CalculateLiquidityFeeByEvents(report, liabilityShares, liquidityFeeBp, vaultEvents);
  }

  /**
   The check against the previous report, `prev_liability_shares != vault_liability_shares`, passes for every vault
   whose history is consistent: the replay comes back to the reported shares, or to none after a reconnection.
   */
  lemma {:induction false} ReportedSharesMatch(
      report: Report, fetched: seq<Event>, events: seq<Event>, s: VaultState, reported: int)
    requires report.Valid() && multiset(fetched) == multiset(events)
    requires IsHistory(events, report.vault, s) && InTime(report, events, report.currentTimestamp)
    ensures var final := After(events, report.vault, s);
      var expected := if Reconnected(fetched) then 0 else reported;
      var r := Replay(report, Sort(fetched, Later()), final.shares, final.feeBp, report.currentTimestamp);
      r.Success? && (r.value.1 == expected <==> Reconnected(fetched) || reported == s.shares)
  {
    BackwardEqualsForward(report, fetched, events, s);
    assert Reconnected(fetched) <==> Reconnected(events) by {
      if i :| 0 <= i < |fetched| && fetched[i].kind.Connected? {
        assert fetched[i] in multiset(events);
        var j :| 0 <= j < |events| && events[j] == fetched[i];
      }
      if j :| 0 <= j < |events| && events[j].kind.Connected? {
        assert events[j] in multiset(fetched);
        var i :| 0 <= i < |fetched| && fetched[i] == events[j];
      }
    }
  }
}
