/**
 The withdrawal sweep predictor: which withdrawals a sweep makes, and how many epochs a full cycle takes.
 Python's float division is `real` division.
 */
module Sweep {
  import opened Arithmetic
  import opened ValidatorState
  import opened SetSums

  const MAX_PENDING_PARTIALS_PER_WITHDRAWALS_SWEEP := 8
  const MAX_WITHDRAWALS_PER_PAYLOAD := 16

  datatype Withdrawal = Withdrawal(validatorIndex: nat, amount: int)

  /** A queue entry asking for a partial withdrawal. */
  datatype PendingPartial = PendingPartial(validatorIndex: nat, amount: nat)

  datatype BeaconState = BeaconState(
    slot: nat, validators: seq<ValidatorState>, balances: seq<nat>, pendingPartials: seq<PendingPartial>)
  {
    predicate Valid() {
      && |balances| == |validators|
      && forall i :: 0 <= i < |pendingPartials| ==> pendingPartials[i].validatorIndex < |validators|
    }
  }

  // ----- Withdrawals of one cycle -----

  predicate IsPerformable(state: BeaconState, p: PendingPartial)
    requires state.Valid() && p.validatorIndex < |state.validators|
  {
    && state.validators[p.validatorIndex].exitEpoch == FAR_FUTURE_EPOCH
    && state.validators[p.validatorIndex].effectiveBalance >= MIN_ACTIVATION_BALANCE
    && state.balances[p.validatorIndex] > MIN_ACTIVATION_BALANCE
  }

  /** The withdrawals of the first `n` entries of the queue. */
  function PerformedPartials(state: BeaconState, n: nat): seq<Withdrawal>
    requires state.Valid() && n <= |state.pendingPartials|
  {
    if n == 0 then []
    else
      var p := state.pendingPartials[n - 1];
      PerformedPartials(state, n - 1) +
      (if IsPerformable(state, p)
       then [Withdrawal(p.validatorIndex,
                        Min(state.balances[p.validatorIndex] - MIN_ACTIVATION_BALANCE, p.amount))]
       else [])
  }

  lemma {:induction false} EarlierPartials(state: BeaconState, m: nat, n: nat)
    requires state.Valid() && m <= n <= |state.pendingPartials|
    ensures PerformedPartials(state, m) <= PerformedPartials(state, n) && PerformedPartials(state, 0) == []
    decreases n
  {
    if m < n { EarlierPartials(state, m, n - 1); }
  }

  /**
     Entry by entry: one withdrawal for an entry whose validator is not exiting, is staked in full and has more than
     32 ETH, of what is asked for or of what is above 32 ETH, whichever is less; nothing for any other entry.
   */
  lemma {:induction false} PartialsMeaning(state: BeaconState, n: nat, i: nat)
    requires state.Valid() && i < n <= |state.pendingPartials|
    ensures var p := state.pendingPartials[i];
      var v, balance := state.validators[p.validatorIndex], state.balances[p.validatorIndex];
      var k, ws := |PerformedPartials(state, i)|, PerformedPartials(state, n);
      if v.exitEpoch == 0xFFFF_FFFF_FFFF_FFFF && v.effectiveBalance >= 32_000_000_000 && balance > 32_000_000_000 then
        && |PerformedPartials(state, i + 1)| == k + 1 && k < |ws| && ws[k].validatorIndex == p.validatorIndex
        && ws[k].amount <= p.amount && ws[k].amount <= balance - 32_000_000_000
        && (ws[k].amount == p.amount || ws[k].amount == balance - 32_000_000_000)
      else |PerformedPartials(state, i + 1)| == k
  {
    EarlierPartials(state, i + 1, n);
  }

  method GetPendingPartialWithdrawals(state: BeaconState) returns (withdrawals: seq<Withdrawal>)
    requires state.Valid()
    ensures withdrawals == PerformedPartials(state, |state.pendingPartials|)
  {
    withdrawals := [];
    for i := 0 to |state.pendingPartials|
      invariant withdrawals == PerformedPartials(state, i)
    {
      var p := state.pendingPartials[i];
      var validator := state.validators[p.validatorIndex];
      var hasSufficientEffectiveBalance := validator.effectiveBalance >= MIN_ACTIVATION_BALANCE;
      var hasExcessBalance := state.balances[p.validatorIndex] > MIN_ACTIVATION_BALANCE;
      if validator.exitEpoch == FAR_FUTURE_EPOCH && hasSufficientEffectiveBalance && hasExcessBalance {
        var amount := Min(state.balances[p.validatorIndex] - MIN_ACTIVATION_BALANCE, p.amount);
        withdrawals := withdrawals + [Withdrawal(p.validatorIndex, amount)];
      }
    }
  }

  /** What the first `n` partial withdrawals take from validator `i`. */
  function PartiallyWithdrawn(partials: seq<Withdrawal>, n: nat, i: nat): int
    requires n <= |partials|
  {
    if n == 0 then 0
    else
      var last := partials[n - 1];
      PartiallyWithdrawn(partials, n - 1, i) + (if last.validatorIndex == i then last.amount else 0)
  }

  function AmountAt(partials: seq<Withdrawal>): int -> int {
    (k: int) => if 0 <= k < |partials| then partials[k].amount else 0
  }

  ghost function WithdrawalsOf(partials: seq<Withdrawal>, n: nat, i: nat): set<int> {
    set k | 0 <= k < n && k < |partials| && partials[k].validatorIndex == i
  }

  /** That is the sum over the withdrawals of this validator. */
  lemma {:induction false} WithdrawnIsSum(partials: seq<Withdrawal>, n: nat, i: nat)
    requires n <= |partials|
    ensures PartiallyWithdrawn(partials, n, i) == SetSum(WithdrawalsOf(partials, n, i), AmountAt(partials))
  {
    if n == 0 {
      assert WithdrawalsOf(partials, n, i) == {};
    } else {
      WithdrawnIsSum(partials, n - 1, i);
      if partials[n - 1].validatorIndex == i {
        assert WithdrawalsOf(partials, n, i) == WithdrawalsOf(partials, n - 1, i) + {n - 1};
        PutOn(WithdrawalsOf(partials, n - 1, i), n - 1, AmountAt(partials));
      } else {
        assert WithdrawalsOf(partials, n, i) == WithdrawalsOf(partials, n - 1, i);
      }
    }
  }

  /** The balance the sweep finds, after the partial withdrawals. */
  function SweptBalance(state: BeaconState, partials: seq<Withdrawal>, i: nat): int
    requires state.Valid() && i < |state.validators|
  {
    state.balances[i] - PartiallyWithdrawn(partials, |partials|, i)
  }

  predicate IsSwept(state: BeaconState, partials: seq<Withdrawal>, epoch: nat, i: nat)
    requires state.Valid() && i < |state.validators|
  {
    var balance := SweptBalance(state, partials, i);
    IsFullyWithdrawable(state.validators[i], balance, epoch) || IsPartiallyWithdrawable(state.validators[i], balance)
  }

  function SweptAmount(state: BeaconState, partials: seq<Withdrawal>, epoch: nat, i: nat): int
    requires state.Valid() && i < |state.validators|
  {
    var balance := SweptBalance(state, partials, i);
    if IsFullyWithdrawable(state.validators[i], balance, epoch) then balance
    else balance - GetMaxEffectiveBalance(state.validators[i])
  }

  /**
     In figures: of validators with execution credentials the sweep takes all of a withdrawable one's balance, and of
     a full one what is above its maximum, 2048 ETH for compounding credentials and else 32.
   */
  lemma {:induction false} SweepInFigures(state: BeaconState, partials: seq<Withdrawal>, epoch: nat, i: nat)
    requires state.Valid() && i < |state.validators|
    ensures var v, balance := state.validators[i], SweptBalance(state, partials, i);
      var maximum := if v.credentials.Compounding? then 2048_000_000_000 else 32_000_000_000;
      var full := v.withdrawableEpoch <= epoch && balance > 0;
      && (IsSwept(state, partials, epoch, i) <==>
            !v.credentials.Bls? && (full || (v.effectiveBalance == maximum && balance > maximum)))
      && (IsSwept(state, partials, epoch, i) ==>
            balance - SweptAmount(state, partials, epoch, i) == if full then 0 else maximum)
  {
  }

  /** `withdrawals` sweeps the validators below `n`: each withdrawable one once, in index order, for its amount. */
  ghost predicate SweepsBelow(
      state: BeaconState, partials: seq<Withdrawal>, epoch: nat, n: nat, withdrawals: seq<Withdrawal>)
    requires state.Valid() && n <= |state.validators|
  {
    && (forall k :: 0 <= k < |withdrawals| ==>
          && withdrawals[k].validatorIndex < n
          && IsSwept(state, partials, epoch, withdrawals[k].validatorIndex)
          && withdrawals[k].amount == SweptAmount(state, partials, epoch, withdrawals[k].validatorIndex) > 0)
    && (forall j, k :: 0 <= j < k < |withdrawals| ==> withdrawals[j].validatorIndex < withdrawals[k].validatorIndex)
    && (forall i :: 0 <= i < n && IsSwept(state, partials, epoch, i) ==>
          exists k :: 0 <= k < |withdrawals| && withdrawals[k].validatorIndex == i)
  }

  method GetValidatorsWithdrawals(state: BeaconState, partials: seq<Withdrawal>, slotsPerEpoch: nat)
    returns (withdrawals: seq<Withdrawal>)
    requires state.Valid() && slotsPerEpoch > 0
    ensures SweepsBelow(state, partials, state.slot / slotsPerEpoch, |state.validators|, withdrawals)
  {
    var epoch := state.slot / slotsPerEpoch;
    var partiallyWithdrawn: map<nat, int> := map[];
    for k := 0 to |partials|
      invariant forall i: nat ::
        (if i in partiallyWithdrawn then partiallyWithdrawn[i] else 0) == PartiallyWithdrawn(partials, k, i)
    {
      var w := partials[k];
      var before := if w.validatorIndex in partiallyWithdrawn then partiallyWithdrawn[w.validatorIndex] else 0;
      partiallyWithdrawn := partiallyWithdrawn[w.validatorIndex := before + w.amount];
    }
    withdrawals := [];
    for i := 0 to |state.validators|
      invariant SweepsBelow(state, partials, epoch, i, withdrawals)
    {
      var validator := state.validators[i];
      var balance := state.balances[i] - (if i in partiallyWithdrawn then partiallyWithdrawn[i] else 0);
      assert balance == SweptBalance(state, partials, i);
      ghost var before := withdrawals;
      if IsFullyWithdrawable(validator, balance, epoch) {
        withdrawals := withdrawals + [Withdrawal(i, balance)];
      } else if IsPartiallyWithdrawable(validator, balance) {
        withdrawals := withdrawals + [Withdrawal(i, balance - GetMaxEffectiveBalance(validator))];
      }
      SweepsOneMore(state, partials, epoch, i, before, withdrawals);
    }
  }

  lemma {:induction false} SweepsOneMore(state: BeaconState, partials: seq<Withdrawal>, epoch: nat, i: nat,
      before: seq<Withdrawal>, after: seq<Withdrawal>)
    requires state.Valid() && i < |state.validators| && SweepsBelow(state, partials, epoch, i, before)
    requires after == if IsSwept(state, partials, epoch, i)
      then before + [Withdrawal(i, SweptAmount(state, partials, epoch, i))] else before
    ensures SweepsBelow(state, partials, epoch, i + 1, after)
  {
    hide IsSwept;
    assert IsSwept(state, partials, epoch, i) ==> SweptAmount(state, partials, epoch, i) > 0 by {
      SweptAmountIsPositive(state, partials, epoch, i);
    }
    forall j | 0 <= j < i + 1 && IsSwept(state, partials, epoch, j)
      ensures exists k :: 0 <= k < |after| && after[k].validatorIndex == j
    {
      if j < i {
        var k :| 0 <= k < |before| && before[k].validatorIndex == j;
        assert after[k].validatorIndex == j;
      } else {
        assert after[|before|].validatorIndex == j;
      }
    }
  }

  lemma {:induction false} SweptAmountIsPositive(state: BeaconState, partials: seq<Withdrawal>, epoch: nat, i: nat)
    requires state.Valid() && i < |state.validators|
    ensures IsSwept(state, partials, epoch, i) ==> SweptAmount(state, partials, epoch, i) > 0
  {
  }

  // ----- The length of a cycle -----

  /** The number of withdrawals in a cycle over `validators` withdrawals with `partials` pending partials. */
  function WithdrawalsInCycle(validators: nat, partials: nat): nat {
    var maxRatio := MAX_PENDING_PARTIALS_PER_WITHDRAWALS_SWEEP as real
      / (MAX_WITHDRAWALS_PER_PAYLOAD - MAX_PENDING_PARTIALS_PER_WITHDRAWALS_SWEEP) as real;
    var maxPartials := Ceil(validators as real * maxRatio);
    validators + Min(partials, maxPartials)
  }

  method PredictWithdrawalsNumberInSweepCycle(state: BeaconState, slotsPerEpoch: nat) returns (number: nat)
    requires state.Valid() && slotsPerEpoch > 0
    ensures var performed := PerformedPartials(state, |state.pendingPartials|);
      exists ws ::
        && SweepsBelow(state, performed, state.slot / slotsPerEpoch, |state.validators|, ws)
        && number == WithdrawalsInCycle(|ws|, |performed|)
  {
    var pending := GetPendingPartialWithdrawals(state);
    var withdrawals := GetValidatorsWithdrawals(state, pending, slotsPerEpoch);
    number := WithdrawalsInCycle(|withdrawals|, |pending|);
  }

  lemma {:induction false} SweepPrefix(
      state: BeaconState, partials: seq<Withdrawal>, epoch: nat, n: nat, ws: seq<Withdrawal>)
    requires state.Valid() && n < |state.validators| && SweepsBelow(state, partials, epoch, n + 1, ws)
    ensures if IsSwept(state, partials, epoch, n)
      then ws != [] && ws[|ws| - 1] == Withdrawal(n, SweptAmount(state, partials, epoch, n))
        && SweepsBelow(state, partials, epoch, n, ws[..|ws| - 1])
      else SweepsBelow(state, partials, epoch, n, ws)
  {
    hide IsSwept, SweptAmount;
    if IsSwept(state, partials, epoch, n) {
      var k :| 0 <= k < |ws| && ws[k].validatorIndex == n;
      var last, front := ws[|ws| - 1], ws[..|ws| - 1];
      assert ws[k].validatorIndex <= last.validatorIndex;
      assert last.validatorIndex == n;
      forall i | 0 <= i < n && IsSwept(state, partials, epoch, i)
        ensures exists j :: 0 <= j < |front| && front[j].validatorIndex == i
      {
        var j :| 0 <= j < |ws| && ws[j].validatorIndex == i;
        assert front[j].validatorIndex == i;
      }
    } else {
      forall k | 0 <= k < |ws| ensures ws[k].validatorIndex < n {
        assert ws[k].validatorIndex != n;
      }
    }
  }

  /** A sweep is determined by the state, and so is the prediction. */
  lemma {:induction false} SweepIsUnique(
      state: BeaconState, partials: seq<Withdrawal>, epoch: nat, n: nat, a: seq<Withdrawal>, b: seq<Withdrawal>)
    requires state.Valid() && n <= |state.validators|
    requires SweepsBelow(state, partials, epoch, n, a) && SweepsBelow(state, partials, epoch, n, b)
    ensures a == b
    decreases n
  {
    hide SweepsBelow, IsSwept, SweptAmount;
    if n == 0 {
      NothingSwept(state, partials, epoch, a);
      NothingSwept(state, partials, epoch, b);
    } else {
      SweepPrefix(state, partials, epoch, n - 1, a);
      SweepPrefix(state, partials, epoch, n - 1, b);
      if IsSwept(state, partials, epoch, n - 1) {
        SweepIsUnique(state, partials, epoch, n - 1, a[..|a| - 1], b[..|b| - 1]);
        assert a == a[..|a| - 1] + [a[|a| - 1]] && b == b[..|b| - 1] + [b[|b| - 1]];
      } else {
        SweepIsUnique(state, partials, epoch, n - 1, a, b);
      }
    }
  }

  lemma {:induction false} NothingSwept(state: BeaconState, partials: seq<Withdrawal>, epoch: nat, ws: seq<Withdrawal>)
    requires state.Valid() && SweepsBelow(state, partials, epoch, 0, ws)
    ensures ws == []
  {
    if ws != [] {
      var first := ws[0].validatorIndex;
    }
  }

  function FullSweepCycleInEpochs(withdrawals: nat, slotsPerEpoch: nat): int
    requires slotsPerEpoch > 0
  {
    Ceil(withdrawals as real / MAX_WITHDRAWALS_PER_PAYLOAD as real / slotsPerEpoch as real)
  }

  /** Payload by payload: up to 8 pending partials first, validators fill the rest of the 16 places. */
  function SimulatedPayloads(validators: nat, partials: nat): nat
    decreases validators
  {
    if validators == 0 then 0
    else
      var p := Min(partials, 8);
      var v := Min(validators, 16 - p);
      1 + SimulatedPayloads(validators - v, partials - p)
  }

  lemma {:induction false} CycleCountsPartialsOnce(validators: nat, partials: nat)
    ensures WithdrawalsInCycle(validators, partials) == validators + Min(partials, validators)
  {
    assert 8.0 / 8.0 == 1.0;
    assert validators as real * 1.0 == validators as real;
  }

  /** The closed form is exact: the payloads of the simulation are the cycle's withdrawals, 16 to a payload. */
  lemma {:induction false} SimulationMatchesClosedForm(validators: nat, partials: nat)
    ensures SimulatedPayloads(validators, partials) == (WithdrawalsInCycle(validators, partials) + 15) / 16
    decreases validators
  {
    CycleCountsPartialsOnce(validators, partials);
    if validators > 0 {
      var p := Min(partials, 8);
      var v := Min(validators, 16 - p);
      SimulationMatchesClosedForm(validators - v, partials - p);
      CycleCountsPartialsOnce(validators - v, partials - p);
    }
  }

  lemma {:induction false} QuotientsCompare(a: real, b: real, n: real)
    requires b > 0.0
    ensures n >= a / b <==> n * b >= a
  {
    var q := a / b;
    assert q * b == a;
    if n >= q { assert (n - q) * b >= 0.0; } else { assert (q - n) * b > 0.0; }
  }

  lemma {:induction false} ProductOfReals(a: int, b: int)
    ensures (a * b) as real == a as real * b as real
  {
  }

  lemma {:induction false} CycleInSlots(withdrawals: nat, slotsPerEpoch: nat, epochs: int)
    requires slotsPerEpoch > 0
    ensures epochs >= FullSweepCycleInEpochs(withdrawals, slotsPerEpoch) <==>
      epochs * slotsPerEpoch * 16 >= withdrawals
  {
    var payloads := withdrawals as real / 16.0;
    var slots := epochs * slotsPerEpoch;
    CeilIsLeast(payloads / slotsPerEpoch as real, epochs);
    QuotientsCompare(payloads, slotsPerEpoch as real, epochs as real);
    ProductOfReals(epochs, slotsPerEpoch);
    assert epochs >= FullSweepCycleInEpochs(withdrawals, slotsPerEpoch) <==> slots as real >= payloads;
    assert payloads * 16.0 == withdrawals as real;
  }

  /** A cycle fits into some epochs exactly when they have a slot for every simulated payload. */
  lemma {:induction false} CycleIsLeast(validators: nat, partials: nat, slotsPerEpoch: nat, epochs: int)
    requires slotsPerEpoch > 0
    ensures epochs >= FullSweepCycleInEpochs(WithdrawalsInCycle(validators, partials), slotsPerEpoch) <==>
      epochs * slotsPerEpoch >= SimulatedPayloads(validators, partials)
  {
    CycleInSlots(WithdrawalsInCycle(validators, partials), slotsPerEpoch, epochs);
    SimulationMatchesClosedForm(validators, partials);
    var slots := epochs * slotsPerEpoch;
    assert slots * 16 >= WithdrawalsInCycle(validators, partials)
      <==> slots >= (WithdrawalsInCycle(validators, partials) + 15) / 16;
  }

  /** A validator waits for half a cycle on average. */
  function SweepDelay(withdrawals: nat, slotsPerEpoch: nat): int
    requires slotsPerEpoch > 0
  {
    FullSweepCycleInEpochs(withdrawals, slotsPerEpoch) / 2
  }

  /** The delay is the least number of epochs that, doubled and one more, have a slot for every simulated payload. */
  lemma {:induction false} SweepDelayIsLeast(validators: nat, partials: nat, slotsPerEpoch: nat, delay: int)
    requires slotsPerEpoch > 0
    ensures delay >= SweepDelay(WithdrawalsInCycle(validators, partials), slotsPerEpoch) <==>
      (2 * delay + 1) * slotsPerEpoch >= SimulatedPayloads(validators, partials)
  {
    hide FullSweepCycleInEpochs, WithdrawalsInCycle, SimulatedPayloads;
    CycleIsLeast(validators, partials, slotsPerEpoch, 2 * delay + 1);
  }

  ghost predicate IsSweepDelay(delay: int, slotsPerEpoch: nat, payloads: nat) {
    forall d: int :: d >= delay <==> EnoughSlots(d, slotsPerEpoch, payloads)
  }

  predicate EnoughSlots(delay: int, slotsPerEpoch: nat, payloads: nat) {
    (2 * delay + 1) * slotsPerEpoch >= payloads
  }

  method GetSweepDelayInEpochs(state: BeaconState, slotsPerEpoch: nat) returns (delay: int)
    requires state.Valid() && slotsPerEpoch > 0
    ensures var performed := PerformedPartials(state, |state.pendingPartials|);
      exists ws ::
        && SweepsBelow(state, performed, state.slot / slotsPerEpoch, |state.validators|, ws)
        && IsSweepDelay(delay, slotsPerEpoch, SimulatedPayloads(|ws|, |performed|))
  {
    hide FullSweepCycleInEpochs, WithdrawalsInCycle, SimulatedPayloads, SweepsBelow, PerformedPartials, EnoughSlots;
    var number := PredictWithdrawalsNumberInSweepCycle(state, slotsPerEpoch);
    ghost var performed := PerformedPartials(state, |state.pendingPartials|);
    ghost var ws :|
      && SweepsBelow(state, performed, state.slot / slotsPerEpoch, |state.validators|, ws)
      && number == WithdrawalsInCycle(|ws|, |performed|);
    delay := FullSweepCycleInEpochs(number, slotsPerEpoch) / 2;
    forall d: int ensures d >= delay <==> EnoughSlots(d, slotsPerEpoch, SimulatedPayloads(|ws|, |performed|)) {
      SweepDelayIsLeast(|ws|, |performed|, slotsPerEpoch, d);
      DelayInSlots(d, slotsPerEpoch, SimulatedPayloads(|ws|, |performed|));
    }
    assert IsSweepDelay(delay, slotsPerEpoch, SimulatedPayloads(|ws|, |performed|));
  }

  lemma {:induction false} DelayInSlots(delay: int, slotsPerEpoch: nat, payloads: nat)
    ensures EnoughSlots(delay, slotsPerEpoch, payloads) <==> (2 * delay + 1) * slotsPerEpoch >= payloads
  {
  }
}
