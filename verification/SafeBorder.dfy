/** The border set by slashings that are not over: where their start can be seen, predicted, or must be searched for. */
module SafeBorder {
  import opened Wrappers
  import opened Arithmetic
  import opened ValidatorState
  import opened Web3Converter

  const MIN_VALIDATOR_WITHDRAWABILITY_DELAY := 256
  const EPOCHS_PER_SLASHINGS_VECTOR := 8192

  datatype LidoValidator = LidoValidator(index: nat, state: ValidatorState)

  /** Whether the state of a slot shows a validator as slashed. */
  type SlashedFlags = (nat, int) -> bool

  /** The flag never goes away. */
  ghost predicate Permanent(flags: SlashedFlags) {
    forall v, s, t: int :: s <= t && flags(v, s) ==> flags(v, t)
  }

  // ----- The search over frames -----

  predicate SlashingsInFrame(c: Config, frame: int, validators: seq<LidoValidator>, flags: SlashedFlags) {
    exists i :: 0 <= i < |validators| && flags(validators[i].index, c.GetFrameLastSlot(frame))
  }

  /** The linear scan: the first frame from `start` on that shows a slashing, or `end`. */
  function FirstFrame(c: Config, start: int, end: int, validators: seq<LidoValidator>, flags: SlashedFlags): int
    decreases end - start
  {
    if start >= end || SlashingsInFrame(c, start, validators, flags) then start
    else FirstFrame(c, start + 1, end, validators, flags)
  }

  lemma {:induction false} SlashingsStay(
      c: Config, f: int, g: int, validators: seq<LidoValidator>, flags: SlashedFlags)
    requires Permanent(flags) && f <= g && SlashingsInFrame(c, f, validators, flags)
    ensures SlashingsInFrame(c, g, validators, flags)
  {
    FramesInOrder(c, f + 1, g + 1);
  }

  /** A frame with a slashing may as well be the end of the scan. */
  lemma {:induction false} ScanStopsAtSlashing(
      c: Config, start: int, mid: int, end: int, validators: seq<LidoValidator>, flags: SlashedFlags)
    requires start <= mid < end && SlashingsInFrame(c, mid, validators, flags)
    ensures FirstFrame(c, start, end, validators, flags) == FirstFrame(c, start, mid, validators, flags)
    decreases mid - start
  {
    hide SlashingsInFrame;
    if start < mid { ScanStopsAtSlashing(c, start + 1, mid, end, validators, flags); }
  }

  /** Up to a frame without a slashing the scan finds nothing. */
  lemma {:induction false} ScanSkipsQuiet(
      c: Config, start: int, mid: int, end: int, validators: seq<LidoValidator>, flags: SlashedFlags)
    requires Permanent(flags) && start <= mid < end && !SlashingsInFrame(c, mid, validators, flags)
    ensures FirstFrame(c, start, end, validators, flags) == FirstFrame(c, mid + 1, end, validators, flags)
    decreases mid - start
  {
    hide SlashingsInFrame;
    if SlashingsInFrame(c, start, validators, flags) {
      SlashingsStay(c, start, mid, validators, flags);
    }
    if start < mid { ScanSkipsQuiet(c, start + 1, mid, end, validators, flags); }
  }

  method SearchFrame(c: Config, startFrame: int, endFrame: int, validators: seq<LidoValidator>, flags: SlashedFlags)
    returns (frame: int)
    requires Permanent(flags)
    ensures frame == FirstFrame(c, startFrame, endFrame, validators, flags)
  {
    hide SlashingsInFrame, Permanent;
    var start, end := startFrame, endFrame;
    while start < end
      invariant FirstFrame(c, start, end, validators, flags) == FirstFrame(c, startFrame, endFrame, validators, flags)
      decreases end - start
    {
      var mid := (end + start) / 2;
      if SlashingsInFrame(c, mid, validators, flags) {
        ScanStopsAtSlashing(c, start, mid, end, validators, flags);
        end := mid;
      } else {
        ScanSkipsQuiet(c, start, mid, end, validators, flags);
        start := mid + 1;
      }
    }
    return start;
  }

  lemma {:induction false} NothingBefore(
      c: Config, start: int, end: int, validators: seq<LidoValidator>, flags: SlashedFlags)
    ensures forall f :: start <= f < FirstFrame(c, start, end, validators, flags) ==>
      !SlashingsInFrame(c, f, validators, flags)
    ensures start <= end ==> start <= FirstFrame(c, start, end, validators, flags) <= end
    ensures start >= end ==> FirstFrame(c, start, end, validators, flags) == start
    ensures FirstFrame(c, start, end, validators, flags) < end ==>
      SlashingsInFrame(c, FirstFrame(c, start, end, validators, flags), validators, flags)
    decreases end - start
  {
    hide SlashingsInFrame;
    if start < end && !SlashingsInFrame(c, start, validators, flags) {
      NothingBefore(c, start + 1, end, validators, flags);
    }
  }

  // ----- The earliest slashed epoch, rounded to a frame -----

  function MinActivation(validators: seq<LidoValidator>): nat
    requires validators != []
  {
    if |validators| == 1 then validators[0].state.activationEpoch
    else Min(validators[0].state.activationEpoch, MinActivation(validators[1..]))
  }

  function MinWithdrawable(validators: seq<LidoValidator>): (m: nat)
    requires validators != []
    ensures forall i :: 0 <= i < |validators| ==> m <= validators[i].state.withdrawableEpoch
  {
    if |validators| == 1 then validators[0].state.withdrawableEpoch
    else
      assert forall i :: 0 < i < |validators| ==> validators[i] == validators[1..][i - 1];
      Min(validators[0].state.withdrawableEpoch, MinWithdrawable(validators[1..]))
  }

  /** What the search needs to know of the chain. */
  datatype Chain = Chain(config: Config, refEpoch: nat, lastFinalizedRequestEpoch: nat, flags: SlashedFlags)

  function StartFrame(chain: Chain, validators: seq<LidoValidator>): int
    requires chain.config.Valid() && validators != []
  {
    chain.config.GetFrameByEpoch(Max(chain.lastFinalizedRequestEpoch, MinActivation(validators)))
  }

  function EndFrame(chain: Chain, validators: seq<LidoValidator>): int
    requires chain.config.Valid() && validators != []
  {
    chain.config.GetFrameByEpoch(Min(chain.refEpoch, MinWithdrawable(validators) - EPOCHS_PER_SLASHINGS_VECTOR))
  }

  lemma {:induction false} LeastActivation(validators: seq<LidoValidator>)
    requires validators != []
    ensures exists i :: 0 <= i < |validators| && MinActivation(validators) == validators[i].state.activationEpoch
    ensures forall i :: 0 <= i < |validators| ==> MinActivation(validators) <= validators[i].state.activationEpoch
  {
    if |validators| > 1 {
      LeastActivation(validators[1..]);
      assert forall i :: 0 < i < |validators| ==> validators[i] == validators[1..][i - 1];
    } else {
      assert MinActivation(validators) == validators[0].state.activationEpoch;
    }
  }

  lemma {:induction false} LeastWithdrawable(validators: seq<LidoValidator>)
    requires validators != []
    ensures exists i :: 0 <= i < |validators| && MinWithdrawable(validators) == validators[i].state.withdrawableEpoch
  {
    if |validators| > 1 {
      LeastWithdrawable(validators[1..]);
      assert forall i :: 0 < i < |validators| ==> validators[i] == validators[1..][i - 1];
    } else {
      assert MinWithdrawable(validators) == validators[0].state.withdrawableEpoch;
    }
  }

  /** `frame` is the frame of `epoch`. */
  predicate IsFrameOf(c: Config, frame: int, epoch: int) {
    c.initialEpoch + frame * c.epochsPerFrame <= epoch < c.initialEpoch + frame * c.epochsPerFrame + c.epochsPerFrame
  }

  ghost predicate IsLeastActivation(validators: seq<LidoValidator>, n: nat) {
    && (exists i :: 0 <= i < |validators| && n == validators[i].state.activationEpoch)
    && forall i :: 0 <= i < |validators| ==> n <= validators[i].state.activationEpoch
  }

  ghost predicate IsLeastWithdrawable(validators: seq<LidoValidator>, n: nat) {
    && (exists i :: 0 <= i < |validators| && n == validators[i].state.withdrawableEpoch)
    && forall i :: 0 <= i < |validators| ==> n <= validators[i].state.withdrawableEpoch
  }

  /**
     The scan starts in the frame of the last finalized request or of the first activation, whichever is later, and
     ends in that of the report or of the earliest epoch a slashing can date back to, whichever is earlier.
   */
  lemma {:induction false} SearchBounds(chain: Chain, validators: seq<LidoValidator>, first: nat, last: nat)
    requires chain.config.Valid() && validators != []
    requires IsLeastActivation(validators, first) && IsLeastWithdrawable(validators, last)
    ensures IsFrameOf(chain.config, StartFrame(chain, validators),
      if first > chain.lastFinalizedRequestEpoch then first else chain.lastFinalizedRequestEpoch)
    ensures IsFrameOf(chain.config, EndFrame(chain, validators),
      if last - 8192 < chain.refEpoch then last - 8192 else chain.refEpoch)
  {
    LeastActivation(validators);
    LeastWithdrawable(validators);
    assert MinActivation(validators) == first && MinWithdrawable(validators) == last;
    hide MinActivation, MinWithdrawable, IsLeastActivation, IsLeastWithdrawable;
    EpochIsInFrame(chain.config, Max(chain.lastFinalizedRequestEpoch, first));
    EpochIsInFrame(chain.config, Min(chain.refEpoch, last - 8192));
  }

  lemma {:induction false} EpochIsInFrame(c: Config, epoch: int)
    requires c.Valid()
    ensures IsFrameOf(c, c.GetFrameByEpoch(epoch), epoch)
  {
    QuotientBounds(epoch - c.initialEpoch, c.epochsPerFrame);
  }

  /** The first epoch of the frame that a linear scan would find. */
  function RoundedEarliest(chain: Chain, validators: seq<LidoValidator>): int
    requires chain.config.Valid() && validators != []
  {
    var frame := FirstFrame(
      chain.config, StartFrame(chain, validators), EndFrame(chain, validators), validators, chain.flags);
    chain.config.initialEpoch + frame * chain.config.epochsPerFrame
  }

  method FindEarliestSlashedEpochRoundedToFrame(chain: Chain, validators: seq<LidoValidator>) returns (epoch: int)
    requires chain.config.Valid() && validators != [] && Permanent(chain.flags)
    ensures epoch == RoundedEarliest(chain, validators)
  {
    hide FirstFrame, Permanent;
    var c := chain.config;
    var startEpoch := Max(chain.lastFinalizedRequestEpoch, MinActivation(validators));
    var endEpoch := Min(chain.refEpoch, MinWithdrawable(validators) - EPOCHS_PER_SLASHINGS_VECTOR);
    var frame := SearchFrame(c, c.GetFrameByEpoch(startEpoch), c.GetFrameByEpoch(endEpoch), validators, chain.flags);
    FrameStartsAnEpoch(c, frame);
    return c.GetEpochBySlot(c.GetFrameFirstSlot(frame));
  }

  /** The search is safe: its epoch starts a frame, and no slashing at or after the start frame comes before it. */
  lemma {:induction false} SearchIsSafe(chain: Chain, validators: seq<LidoValidator>, i: nat, slot: int)
    requires chain.config.Valid() && Permanent(chain.flags)
    requires i < |validators| && chain.flags(validators[i].index, slot)
    requires slot >= chain.config.GetFrameFirstSlot(StartFrame(chain, validators))
    ensures chain.config.RoundEpochByFrame(RoundedEarliest(chain, validators)) == RoundedEarliest(chain, validators)
    ensures RoundedEarliest(chain, validators) <= chain.config.GetEpochBySlot(slot)
  {
    hide FirstFrame, MinActivation, MinWithdrawable;
    var c := chain.config;
    var start, end := StartFrame(chain, validators), EndFrame(chain, validators);
    var found, frame := FirstFrame(c, start, end, validators, chain.flags), c.GetFrameBySlot(slot);
    FrameStartsAnEpoch(c, found);
    SlotIsInFrame(c, slot);
    if frame < start { FramesInOrder(c, frame + 1, start); }
    NothingBefore(c, start, end, validators, chain.flags);
    assert SlashingsInFrame(c, frame, validators, chain.flags);
    assert found <= frame;
    FrameNotAfterEpoch(c, found, c.GetEpochBySlot(slot));
  }

  lemma {:induction false} FrameNotAfterEpoch(c: Config, frame: int, epoch: int)
    requires c.Valid() && frame <= c.GetFrameByEpoch(epoch)
    ensures c.initialEpoch + frame * c.epochsPerFrame <= epoch
  {
    Grows(frame, c.GetFrameByEpoch(epoch), c.epochsPerFrame);
    QuotientBounds(epoch - c.initialEpoch, c.epochsPerFrame);
  }

  // ----- Predicting the slashed epoch of one validator -----

  datatype WrongExitPeriod = WrongExitPeriod

  function ExitedPeriod(v: LidoValidator): int {
    v.state.withdrawableEpoch - v.state.exitEpoch
  }

  /** None when the start of the slashing cannot be told. */
  function PredictEarliestSlashedEpoch(v: LidoValidator): Result<Option<int>, WrongExitPeriod> {
    if ExitedPeriod(v) < MIN_VALIDATOR_WITHDRAWABILITY_DELAY then Failure(WrongExitPeriod)
    else if ExitedPeriod(v) == MIN_VALIDATOR_WITHDRAWABILITY_DELAY then Success(None)
    else Success(Some(v.state.withdrawableEpoch - EPOCHS_PER_SLASHINGS_VECTOR))
  }

  /** A slashing at an epoch, as `slash_validator` of the consensus specification records it. */
  ghost predicate IsSlashedAt(v: LidoValidator, epoch: nat) {
    v.state.slashed && v.state.withdrawableEpoch == Max(v.state.exitEpoch + 256, epoch + 8192)
  }

  /** For a real slashing it never raises; it is exact whenever it answers, and answers unless the exit queue is longer. */
  lemma {:induction false} PredictionIsExact(v: LidoValidator, epoch: nat)
    requires IsSlashedAt(v, epoch)
    ensures PredictEarliestSlashedEpoch(v).Success?
    ensures PredictEarliestSlashedEpoch(v).value.Some? <==>
      v.state.exitEpoch + MIN_VALIDATOR_WITHDRAWABILITY_DELAY < epoch + EPOCHS_PER_SLASHINGS_VECTOR
    ensures PredictEarliestSlashedEpoch(v).value.Some? ==> PredictEarliestSlashedEpoch(v).value.value == epoch
    ensures epoch <= v.state.withdrawableEpoch - EPOCHS_PER_SLASHINGS_VECTOR
  {
  }

  // ----- Among all incomplete slashings -----

  /** The validator is slashed and its withdrawable epoch is still to come. */
  predicate IsIncomplete(v: LidoValidator, refEpoch: nat) {
    v.state.slashed && v.state.withdrawableEpoch > refEpoch
  }

  function Incomplete(validators: seq<LidoValidator>, refEpoch: nat): seq<LidoValidator> {
    if validators == [] then []
    else
      (if IsIncomplete(validators[0], refEpoch) then [validators[0]] else [])
      + Incomplete(validators[1..], refEpoch)
  }

  lemma {:induction false} IncompleteMembers(validators: seq<LidoValidator>, refEpoch: nat)
    ensures forall v :: v in Incomplete(validators, refEpoch) <==>
      (v in validators && v.state.slashed && v.state.withdrawableEpoch > refEpoch)
    ensures Incomplete(validators, refEpoch) == [] <==>
      forall v :: v in validators ==> !v.state.slashed || v.state.withdrawableEpoch <= refEpoch
  {
    if validators != [] { IncompleteMembers(validators[1..], refEpoch); }
  }

  /** The prediction is a proper epoch; epoch 0 reads as none. */
  predicate IsTold(v: LidoValidator) {
    && PredictEarliestSlashedEpoch(v).Success? && PredictEarliestSlashedEpoch(v).value.Some?
    && PredictEarliestSlashedEpoch(v).value.value != 0
  }

  ghost predicate AllTold(vs: seq<LidoValidator>, n: nat)
    requires n <= |vs|
  {
    forall i :: 0 <= i < n ==> IsTold(vs[i])
  }

  /** The first validator that is not told has a wrong exit period. */
  ghost predicate StopsAt(vs: seq<LidoValidator>, n: nat) {
    n < |vs| && AllTold(vs, n) && PredictEarliestSlashedEpoch(vs[n]).Failure?
  }

  ghost predicate IsStopped(vs: seq<LidoValidator>) {
    exists n: nat :: StopsAt(vs, n)
  }

  /** The least prediction of the first `n`. */
  ghost predicate IsLeast(vs: seq<LidoValidator>, n: nat, e: int)
    requires n <= |vs| && AllTold(vs, n)
  {
    && (exists i :: 0 <= i < n && PredictEarliestSlashedEpoch(vs[i]).value.value == e)
    && forall i :: 0 <= i < n ==> e <= PredictEarliestSlashedEpoch(vs[i]).value.value
  }

  /** The first validator that is not told decides: a wrong exit period raises, the others start the search. */
  method GetEarliestSlashedEpochAmongIncompleteSlashings(chain: Chain, validators: seq<LidoValidator>)
    returns (r: Result<Option<int>, WrongExitPeriod>)
    requires chain.config.Valid() && Permanent(chain.flags)
    ensures forall v :: v in Incomplete(validators, chain.refEpoch) <==>
      (v in validators && v.state.slashed && v.state.withdrawableEpoch > chain.refEpoch)
    ensures r.Success? && r.value.None? <==>
      forall v :: v in validators ==> !v.state.slashed || v.state.withdrawableEpoch <= chain.refEpoch
    ensures var vs := Incomplete(validators, chain.refEpoch);
      && (r.Failure? <==> IsStopped(vs))
      && (r.Success? && r.value.None? <==> vs == [])
      && (r.Success? && vs != [] && AllTold(vs, |vs|) ==> IsLeast(vs, |vs|, r.value.value))
      && (r.Success? && vs != [] && !AllTold(vs, |vs|) ==> r.value.value == RoundedEarliest(chain, vs))
  {
    hide PredictEarliestSlashedEpoch, Incomplete, IsIncomplete, RoundedEarliest, Permanent;
    var vs := Incomplete(validators, chain.refEpoch);
    IncompleteMembers(validators, chain.refEpoch);
    var earliest: Option<int> := None;
    for n := 0 to |vs|
      invariant AllTold(vs, n)
      invariant if n == 0 then earliest.None? else earliest.Some? && earliest.value != 0 && IsLeast(vs, n, earliest.value)
    {
      var predicted := PredictEarliestSlashedEpoch(vs[n]);
      if predicted.Failure? {
        assert StopsAt(vs, n);
        return Failure(predicted.error);
      }
      if predicted.value.None? || predicted.value.value == 0 {
        var epoch := FindEarliestSlashedEpochRoundedToFrame(chain, vs);
        return Success(Some(epoch));
      }
      if earliest.None? || earliest.value == 0 || earliest.value > predicted.value.value {
        earliest := predicted.value;
      }
    }
    return Success(earliest);
  }

  // ----- The border -----

  function AssociatedSlashingsBorder(c: Config, refEpoch: int, shift: nat, earliest: Option<int>): int
    requires c.Valid()
  {
    if earliest.Some? && earliest.value != 0 then c.RoundEpochByFrame(earliest.value) - shift else refEpoch - shift
  }

  /** No slashing is later than the reference epoch it is seen from, and all happened after the frames already settled. */
  ghost predicate SlashingsKnown(chain: Chain, vs: seq<LidoValidator>, slashedAt: LidoValidator -> nat)
    requires chain.config.Valid()
  {
    && (forall i :: 0 <= i < |vs| ==> IsSlashedAt(vs[i], slashedAt(vs[i])))
    && (forall i :: 0 <= i < |vs| ==> chain.flags(vs[i].index, slashedAt(vs[i]) * chain.config.slotsPerEpoch))
    && (vs != [] ==> forall i :: 0 <= i < |vs| ==>
          slashedAt(vs[i]) * chain.config.slotsPerEpoch >= chain.config.GetFrameFirstSlot(StartFrame(chain, vs)))
  }

  /** With real slashings the whole calculation never raises, and its epoch is at or before every one of them. */
  lemma {:induction false} EarliestIsSafe(
      chain: Chain, vs: seq<LidoValidator>, slashedAt: LidoValidator -> nat, e: int, i: nat)
    requires chain.config.Valid() && Permanent(chain.flags) && SlashingsKnown(chain, vs, slashedAt) && i < |vs|
    requires if AllTold(vs, |vs|) then IsLeast(vs, |vs|, e) else e == RoundedEarliest(chain, vs)
    ensures PredictEarliestSlashedEpoch(vs[i]).Success?
    ensures e <= slashedAt(vs[i])
  {
    hide RoundedEarliest, StartFrame;
    PredictionIsExact(vs[i], slashedAt(vs[i]));
    if AllTold(vs, |vs|) {
      assert IsTold(vs[i]);
    } else {
      var slot := slashedAt(vs[i]) * chain.config.slotsPerEpoch;
      SearchIsSafe(chain, vs, i, slot);
      QuotientIs(slot, chain.config.slotsPerEpoch, slashedAt(vs[i]));
    }
  }

  /**
     A shift after the border a frame begins: the one of the earliest slashed epoch. Without such an epoch, or with
     epoch 0, it is the reference epoch.
   */
  lemma {:induction false} BorderIsExact(c: Config, refEpoch: nat, shift: nat, earliest: Option<int>)
    requires c.Valid()
    ensures var start := AssociatedSlashingsBorder(c, refEpoch, shift, earliest) + shift;
      if earliest.None? || earliest == Some(0) then start == refEpoch
      else
        && start <= earliest.value < start + c.epochsPerFrame
        && (start - c.initialEpoch) % c.epochsPerFrame == 0
  {
    if earliest.Some? && earliest.value != 0 {
      RoundingIsDown(c, earliest.value);
      MultipleHasNoRemainder(c.GetFrameByEpoch(earliest.value), c.epochsPerFrame);
    }
  }

  /** The border is a whole shift before the earliest slashed epoch, except when that epoch is 0 and reads as none. */
  lemma {:induction false} BorderIsBeforeSlashing(c: Config, refEpoch: nat, shift: nat, e: int)
    requires c.Valid()
    ensures AssociatedSlashingsBorder(c, refEpoch, shift, Some(e)) <= e - shift <==> e != 0 || refEpoch == 0
  {
    RoundingIsDown(c, e);
  }
}
