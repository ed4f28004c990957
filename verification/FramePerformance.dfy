/**
 From the rows of an epoch range to the performance of each frame: the state is filled frame by frame, and what is
 read from it never makes the distribution raise.
 */
module FramePerformance {
  import opened Wrappers
  import opened Arithmetic
  import opened Sorting
  import opened DutiesDb
  import opened DutyState
  import opened FrameDuties
  import opened FrameDutiesLemmas
  import opened Outcomes
  import opened Distribution

  // ----- Filling the state -----

  datatype StateError = LeftAfterRight | InsufficientEpochs | InFrame(error: DutiesError)

  /** The rows of a frame pass the accounting. */
  ghost predicate RowsAccount(frame: Frame, rows: seq<Duty>, validators: Validators) {
    && RowsFit(rows, |rows|, validators) && EpochsDistinct(rows, |rows|)
    && |rows| == frame.1 - frame.0 + 1 && NoneExceeds(validators, MissesOver(rows), frame.0, frame.1)
  }

  /** `d` holds the duties of the frame, row by row and validator by validator. */
  ghost predicate Accounted(d: NetworkDuties, frame: Frame, rows: seq<Duty>, validators: Validators) {
    && RowsAccount(frame, rows, validators)
    && RowsWellFormed(rows, |rows|) && IsAccounting(d, rows, validators, frame.0, frame.1)
  }

  lemma {:induction false} MergedIntoNothing(d: Accumulators, r: Accumulators)
    requires IsMerge(map[], d, r)
    ensures r == d
  {
    assert r.Keys == d.Keys;
    forall v | v in d ensures r[v] == d[v] {
      assert Get(r, v) == Get(map[], v).Plus(Get(d, v));
      match d[v] case DutyAccumulator(_, _) =>
    }
  }

  lemma {:induction false} FramesDiffer(first: nat, n: nat, size: nat, frames: seq<Frame>)
    requires size > 0 && |frames| == n && forall i :: 0 <= i < n ==> frames[i] == FrameAt(first, i, size)
    ensures forall i, j :: 0 <= i < j < n ==> frames[i] != frames[j]
  {
    forall i: nat, j: nat | i < j < n ensures frames[i] != frames[j] {
      Grows(i + 1, j, size);
    }
  }

  /** The frames before `n` are filled, and the others are still empty. */
  ghost predicate FilledBelow(
      data: map<Frame, NetworkDuties>, frames: seq<Frame>, n: nat, rows: Frame -> seq<Duty>, validators: Validators)
  {
    && (forall f :: f in data <==> f in frames)
    && (forall i :: 0 <= i < n && i < |frames| ==>
          Accounted(data[frames[i]], frames[i], rows(frames[i]), validators))
    && forall i :: n <= i < |frames| ==> data[frames[i]] == NO_DUTIES
  }

  lemma {:induction false} FilledOneMore(
      data: map<Frame, NetworkDuties>, frames: seq<Frame>, n: nat, rows: Frame -> seq<Duty>, validators: Validators,
      d: NetworkDuties, after: map<Frame, NetworkDuties>)
    requires FilledBelow(data, frames, n, rows, validators) && n < |frames|
    requires forall i, j :: 0 <= i < j < |frames| ==> frames[i] != frames[j]
    requires Accounted(d, frames[n], rows(frames[n]), validators) && after == data[frames[n] := d]
    ensures FilledBelow(after, frames, n + 1, rows, validators)
  {
    hide Accounted;
  }

  /**
     The state of an epoch range. It is filled just when the range is cut into whole frames and every frame's rows
     pass the accounting, and then it holds the duties of exactly these frames.
   */
  method GetDutiesState(
      lEpoch: nat, rEpoch: nat, epochsPerFrame: nat, rows: Frame -> seq<Duty>, validators: Validators)
    returns (r: Result<State, StateError>, ghost frames: seq<Frame>)
    requires epochsPerFrame > 0
    ensures r == Failure(LeftAfterRight) <==> lEpoch > rEpoch
    ensures r == Failure(InsufficientEpochs) <==> lEpoch <= rEpoch && (rEpoch - lEpoch + 1) % epochsPerFrame != 0
    ensures lEpoch <= rEpoch && (rEpoch - lEpoch + 1) % epochsPerFrame == 0 ==>
      && |frames| == (rEpoch - lEpoch + 1) / epochsPerFrame
      && (forall i :: 0 <= i < |frames| ==> frames[i] == FrameAt(lEpoch, i, epochsPerFrame))
      && (r.Success? <==> forall i :: 0 <= i < |frames| ==> RowsAccount(frames[i], rows(frames[i]), validators))
    ensures r.Success? ==> fresh(r.value) && FilledBelow(r.value.data, frames, |frames|, rows, validators)
  {
    hide RowsFit, EpochsDistinct, NoneExceeds, IsAccounting, IsMerge, FilledBelow, CalculateFrames, FrameAt;
    frames := [];
    if lEpoch > rEpoch {
      r := Failure(LeftAfterRight);
      return;
    }
    var calculated := FramesOf(lEpoch, rEpoch, epochsPerFrame);
    if calculated.None? {
      r := Failure(InsufficientEpochs);
      return;
    }
    frames := calculated.value;
    var state := new State(calculated.value);
    assert FilledBelow(state.data, frames, 0, rows, validators) by { NothingFilled(state.data, frames, rows, validators); }
    for n := 0 to |calculated.value|
      invariant fresh(state) && FilledBelow(state.data, frames, n, rows, validators)
      invariant forall i :: 0 <= i < n ==> RowsAccount(frames[i], rows(frames[i]), validators)
    {
      var frame := calculated.value[n];
      var duties := GetFrameDuties(frame.0, frame.1, rows(frame), validators);
      if duties.Failure? {
        assert !RowsAccount(frame, rows(frame), validators);
        r := Failure(InFrame(duties.error));
        return;
      }
      ghost var before := state.data;
      assert frame in before && before[frame] == NO_DUTIES by { NextIsEmpty(before, frames, n, rows, validators); }
      var known := state.SaveDuties(frame, duties.value);
      Saved(before, state.data, frame, duties.value);
      FilledOneMore(before, frames, n, rows, validators, duties.value, state.data);
    }
    r := Success(state);
  }

  lemma {:induction false} NothingFilled(
      data: map<Frame, NetworkDuties>, frames: seq<Frame>, rows: Frame -> seq<Duty>, validators: Validators)
    requires forall f :: f in data <==> f in frames
    requires forall f :: f in data ==> data[f] == NO_DUTIES
    ensures FilledBelow(data, frames, 0, rows, validators)
  {
  }

  lemma {:induction false} NextIsEmpty(
      data: map<Frame, NetworkDuties>, frames: seq<Frame>, n: nat, rows: Frame -> seq<Duty>, validators: Validators)
    requires FilledBelow(data, frames, n, rows, validators) && n < |frames|
    ensures frames[n] in data && data[frames[n]] == NO_DUTIES
  {
  }

  lemma {:induction false} Saved(
      before: map<Frame, NetworkDuties>, after: map<Frame, NetworkDuties>, frame: Frame, d: NetworkDuties)
    requires frame in before && before[frame] == NO_DUTIES && after.Keys == before.Keys
    requires forall f :: f in after && f != frame ==> after[f] == before[f]
    requires IsMerge(before[frame].attestations, d.attestations, after[frame].attestations)
    requires IsMerge(before[frame].proposals, d.proposals, after[frame].proposals)
    requires IsMerge(before[frame].syncs, d.syncs, after[frame].syncs)
    ensures after == before[frame := d]
  {
    hide IsMerge;
    MergedIntoNothing(d.attestations, after[frame].attestations);
    MergedIntoNothing(d.proposals, after[frame].proposals);
    MergedIntoNothing(d.syncs, after[frame].syncs);
  }

  /** The frames of the range, or None when its epochs do not fill them. */
  function FramesOf(lEpoch: nat, rEpoch: nat, epochsPerFrame: nat): (r: Option<seq<Frame>>)
    requires epochsPerFrame > 0 && lEpoch <= rEpoch
    ensures r.None? <==> (rEpoch - lEpoch + 1) % epochsPerFrame != 0
    ensures r.Some? ==> |r.value| == (rEpoch - lEpoch + 1) / epochsPerFrame
    ensures r.Some? ==> forall i :: 0 <= i < |r.value| ==> r.value[i] == FrameAt(lEpoch, i, epochsPerFrame)
    ensures r.Some? ==> forall i, j :: 0 <= i < j < |r.value| ==> r.value[i] != r.value[j]
  {
    var count := rEpoch - lEpoch + 1;
    var frames := CalculateFrames(Epochs(lEpoch, count), epochsPerFrame);
    RangeIsCut(lEpoch, count, epochsPerFrame);
    frames
  }

  lemma {:induction false} RangeIsCut(first: nat, count: nat, size: nat)
    requires size > 0
    ensures var r := CalculateFrames(Epochs(first, count), size);
      && (r.None? <==> count % size != 0)
      && (r.Some? ==>
            && |r.value| == count / size
            && (forall i :: 0 <= i < |r.value| ==> r.value[i] == FrameAt(first, i, size))
            && forall i, j :: 0 <= i < j < |r.value| ==> r.value[i] != r.value[j])
  {
    hide FrameAt, Batches, Sort;
    if count % size == 0 {
      var n := count / size;
      assert count == n * size;
      FramesTile(Epochs(first, count), first, n, size);
      FramesDiffer(first, n, size, CalculateFrames(Epochs(first, count), size).value);
    }
  }

  // ----- The network's performance -----

  ghost function AggregateOf(m: Accumulators): DutyAccumulator {
    DutyAccumulator(TotalAssigned(m), TotalIncluded(m))
  }

  ghost function AggregatesOf(d: NetworkDuties): ValidatorDuties {
    ValidatorDuties(Some(AggregateOf(d.attestations)), Some(AggregateOf(d.proposals)), Some(AggregateOf(d.syncs)))
  }

  ghost predicate SomeAbove(m: Accumulators) {
    exists v :: v in m && m[v].includedCount > m[v].assignedCount
  }

  /** Some counter has more included than assigned. */
  ghost predicate AnyAbove(d: NetworkDuties) {
    SomeAbove(d.attestations) || SomeAbove(d.proposals) || SomeAbove(d.syncs)
  }

  method GetNetworkPerformance(state: State, frame: Frame) returns (r: Option<real>)
    ensures r == if frame in state.data && !AnyAbove(state.data[frame])
      then CalcPerformance(DEFAULT_COEFFICIENTS, AggregatesOf(state.data[frame])) else None
  {
    hide TotalAssigned, TotalIncluded, CalcPerformance;
    if frame !in state.data {
      return None;
    }
    var d := state.data[frame];
    var attestations := GetDutyNetworkAggr(d.attestations);
    if attestations.None? { return None; }
    var proposals := GetDutyNetworkAggr(d.proposals);
    if proposals.None? { return None; }
    var syncs := GetDutyNetworkAggr(d.syncs);
    if syncs.None? { return None; }
    return CalcPerformance(DEFAULT_COEFFICIENTS, ValidatorDuties(attestations, proposals, syncs));
  }

  lemma {:induction false} SoundIsNotAbove(m: Accumulators)
    requires AllSound(m)
    ensures !SomeAbove(m)
  {
  }

  lemma {:induction false} DefaultWeightsCount(d: NetworkDuties)
    ensures Base(DEFAULT_COEFFICIENTS, AggregatesOf(d)) == 64
  {
  }

  /** No counter of the frame has more included than assigned, or fewer than none. */
  ghost predicate SoundCounters(d: NetworkDuties) {
    AllSound(d.attestations) && AllSound(d.proposals) && AllSound(d.syncs)
  }

  /** The performance of the network over sound counters never raises, and is a fraction. */
  lemma {:induction false} NetworkPerformanceNeverRaises(d: NetworkDuties)
    requires SoundCounters(d)
    ensures !AnyAbove(d)
    ensures var performance := CalcPerformance(DEFAULT_COEFFICIENTS, AggregatesOf(d));
      && performance.Some? && 0.0 <= performance.value <= 1.0
      && (performance.value == 1.0 <==>
            && Perfect(Some(AggregateOf(d.attestations))) && Perfect(Some(AggregateOf(d.proposals)))
            && Perfect(Some(AggregateOf(d.syncs))))
  {
    hide TotalAssigned, TotalIncluded, CalcPerformance, Base, AllSound, SomeAbove;
    AggregateIsSound(d.attestations);
    AggregateIsSound(d.proposals);
    AggregateIsSound(d.syncs);
    SoundIsNotAbove(d.attestations);
    SoundIsNotAbove(d.proposals);
    SoundIsNotAbove(d.syncs);
    DefaultWeightsCount(d);
    PerformanceIsAFraction(DEFAULT_COEFFICIENTS, AggregatesOf(d));
  }

  /** Of 64 parts of the network performance attestations make 54, proposals 8 and sync duties 2. */
  lemma {:induction false} NetworkPerformanceInFigures(
      d: NetworkDuties, attested: real, proposed: real, synced: real)
    requires IsPart(Some(AggregateOf(d.attestations)), attested) && IsPart(Some(AggregateOf(d.proposals)), proposed)
    requires IsPart(Some(AggregateOf(d.syncs)), synced)
    requires CalcPerformance(DEFAULT_COEFFICIENTS, AggregatesOf(d)).Some?
    ensures CalcPerformance(DEFAULT_COEFFICIENTS, AggregatesOf(d)).value * 64.0
      == attested * 54.0 + proposed * 8.0 + synced * 2.0
  {
    hide TotalAssigned, TotalIncluded, CalcPerformance, IsPart;
    PerformanceIsMean(DEFAULT_COEFFICIENTS, AggregatesOf(d), attested, proposed, synced);
  }

  /** Accounted duties are sound, whatever the rows of the frame. */
  lemma {:induction false} AccountedIsSound(
      d: NetworkDuties, frame: Frame, rows: seq<Duty>, validators: Validators)
    requires Accounted(d, frame, rows, validators)
    ensures SoundCounters(d)
  {
    hide RowsFit, EpochsDistinct, NoneExceeds, IsAccounting, AllSound;
    CountersAreSound(d, rows, validators, frame.0, frame.1);
  }

  /** In a filled state the performance is defined for every frame. */
  lemma {:induction false} EveryFramePerforms(
      data: map<Frame, NetworkDuties>, frames: seq<Frame>, rows: Frame -> seq<Duty>, validators: Validators, frame: Frame)
    requires FilledBelow(data, frames, |frames|, rows, validators) && frame in data
    ensures SoundCounters(data[frame]) && !AnyAbove(data[frame])
    ensures CalcPerformance(DEFAULT_COEFFICIENTS, AggregatesOf(data[frame])).Some?
  {
    hide Accounted, SoundCounters, AnyAbove, CalcPerformance, AggregatesOf;
    var i :| 0 <= i < |frames| && frames[i] == frame;
    AccountedIsSound(data[frame], frame, rows(frame), validators);
    NetworkPerformanceNeverRaises(data[frame]);
  }

  // ----- A frame of the distribution, read from the state -----

  function Lookup(m: Accumulators, v: ValidatorIndex): Option<DutyAccumulator> {
    if v in m then Some(m[v]) else None
  }

  /** `get_validator_duties`. */
  function DutiesOf(d: NetworkDuties, v: ValidatorIndex): ValidatorDuties {
    ValidatorDuties(Lookup(d.attestations, v), Lookup(d.proposals, v), Lookup(d.syncs, v))
  }

  ghost predicate ReadsFrom(frame: FrameInput, d: NetworkDuties) {
    && frame.aggregates == AggregatesOf(d)
    && forall i, j :: 0 <= i < |frame.operators| && 0 <= j < |frame.operators[i].validators| ==>
         frame.operators[i].validators[j].duties == DutiesOf(d, frame.operators[i].validators[j].index)
  }

  /** What a key needs for an outcome: its parameters, and unless it is slashed some weight and a share up to one. */
  ghost predicate KeyIsCovered(op: Operator, networkPerf: real, v: FrameValidator, keyNumber: nat) {
    var leeway, rewardShare := GetFor(op.curve.perfLeeway, keyNumber), GetFor(op.curve.rewardShare, keyNumber);
    && leeway.Some? && rewardShare.Some?
    && (v.slashed
        || (Base(op.curve.perfCoeffs, v.duties) > 0
            && (KeyPerforms(op, networkPerf, v, keyNumber) ==> rewardShare.value <= 1.0)))
  }

  lemma {:induction false} OutcomeIsDefined(op: Operator, networkPerf: real, v: FrameValidator, keyNumber: nat)
    requires SoundDuties(v.duties) && IsActiveIn(v)
    ensures OutcomeOf(op, networkPerf, v, keyNumber).Success? <==> KeyIsCovered(op, networkPerf, v, keyNumber)
  {
    hide GetFor, Threshold, GetValidatorDutiesOutcome, FullWeight, CalcPerformance, Base, KeyPerforms, KeyIsStruck;
    var leeway, rewardShare := GetFor(op.curve.perfLeeway, keyNumber), GetFor(op.curve.rewardShare, keyNumber);
    if leeway.Some? && rewardShare.Some? {
      var threshold := Threshold(networkPerf, leeway.value);
      PerformsByThreshold(op, networkPerf, v, keyNumber, leeway.value);
      PerformanceIsAFraction(op.curve.perfCoeffs, v.duties);
      if Performs(v, threshold, op.curve.perfCoeffs) {
        WeightIsSplit(v, threshold, rewardShare.value, op.curve.perfCoeffs);
      } else {
        OthersBringNothing(v, threshold, rewardShare.value, op.curve.perfCoeffs);
      }
    }
  }

  lemma {:induction false} ReadDutiesAreSound(d: NetworkDuties, v: ValidatorIndex)
    requires AllSound(d.attestations) && AllSound(d.proposals) && AllSound(d.syncs)
    ensures SoundDuties(DutiesOf(d, v))
  {
  }

  /** A frame of valid operators computes just when the network has a performance and every active key is covered. */
  lemma {:induction false} ComputesIffCovered(input: FrameInput)
    requires input.Valid()
    ensures input.Computes() <==>
      CalcPerformance(DEFAULT_COEFFICIENTS, input.aggregates).Some? && AllCovered(input.operators, NetworkPerf(input))
  {
    hide CalcPerformance, Numbered, KeyIsCovered, OutcomeOf, SoundDuties, DistinctBy, Operator.Valid;
    forall i, k | 0 <= i < |input.operators| && 0 <= k < |Numbered(input.operators[i])|
      ensures OutcomeOf(input.operators[i], NetworkPerf(input), Numbered(input.operators[i])[k], k + 1).Success?
        <==> KeyIsCovered(input.operators[i], NetworkPerf(input), Numbered(input.operators[i])[k], k + 1)
    {
      NumberedIsValid(input.operators[i]);
      assert Numbered(input.operators[i])[k] in Numbered(input.operators[i]);
      OutcomeIsDefined(input.operators[i], NetworkPerf(input), Numbered(input.operators[i])[k], k + 1);
    }
  }

  ghost predicate AllCovered(operators: seq<Operator>, networkPerf: real) {
    forall i, k :: 0 <= i < |operators| && 0 <= k < |Numbered(operators[i])| ==>
      KeyIsCovered(operators[i], networkPerf, Numbered(operators[i])[k], k + 1)
  }

  /**
     A frame read from sound counters has sound duties. It computes if and only if every active key is covered by
     its operator's parameters, for its network performance is always defined.
   */
  lemma {:induction false} FrameComputesIffCovered(input: FrameInput, d: NetworkDuties)
    requires SoundCounters(d) && ReadsFrom(input, d) && OperatorsDiffer(input.operators)
    ensures input.Valid()
    ensures input.Computes() <==> AllCovered(input.operators, NetworkPerf(input))
  {
    hide AggregatesOf, CalcPerformance, Numbered, SoundDuties, AllSound, DistinctBy, AllCovered, FrameInput.Computes,
      NetworkPerf;
    NetworkPerformanceNeverRaises(d);
    forall i, j | 0 <= i < |input.operators| && 0 <= j < |input.operators[i].validators|
      ensures SoundDuties(input.operators[i].validators[j].duties)
    {
      ReadDutiesAreSound(d, input.operators[i].validators[j].index);
    }
    ComputesIffCovered(input);
  }

  /** Operators, and the validators and keys inside an operator, occur once. */
  ghost predicate OperatorsDiffer(operators: seq<Operator>) {
    && (forall i :: 0 <= i < |operators| ==>
          DistinctBy(operators[i].validators, IndexOf()) && DistinctBy(operators[i].validators, PubkeyOf()))
    && forall i, j :: 0 <= i < j < |operators| ==> operators[i].noId != operators[j].noId
  }
}
