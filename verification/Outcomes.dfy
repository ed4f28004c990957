/** What one validator brings to its operator in a frame: participation, a rebate to the protocol, or a strike. */
module Outcomes {
  import opened Wrappers
  import opened Arithmetic
  import opened ValidatorState
  import opened DutyState
  import opened Sorting
  import opened Rewards

  const DEFAULT_COEFFICIENTS := PerformanceCoefficients(54, 8, 2)

  // ----- Values by key number -----

  datatype KeyInterval = KeyInterval(minKeyNumber: nat, value: nat)

  function Descending(): (KeyInterval, KeyInterval) -> bool {
    (a: KeyInterval, b: KeyInterval) => a.minKeyNumber >= b.minKeyNumber
  }

  function FirstFrom(intervals: seq<KeyInterval>, keyNumber: nat): Option<real> {
    if intervals == [] then None
    else if keyNumber >= intervals[0].minKeyNumber then Some(intervals[0].value as real / TOTAL_BASIS_POINTS as real)
    else FirstFrom(intervals[1..], keyNumber)
  }

  /** None where the source raises: keys are numbered from 1, and an interval must start at or below the key. */
  function GetFor(intervals: seq<KeyInterval>, keyNumber: int): Option<real> {
    if keyNumber < 1 then None else FirstFrom(Sort(intervals, Descending()), keyNumber)
  }

  /** `i` is the interval that covers the key: the last one to start at or below it. */
  ghost predicate Covers(intervals: seq<KeyInterval>, keyNumber: nat, i: KeyInterval) {
    && i in intervals && i.minKeyNumber <= keyNumber
    && forall j :: j in intervals && j.minKeyNumber <= keyNumber ==> j.minKeyNumber <= i.minKeyNumber
  }

  ghost predicate IsValueAt(intervals: seq<KeyInterval>, keyNumber: nat, x: real) {
    exists i :: Covers(intervals, keyNumber, i) && x == i.value as real / 10000.0
  }

  lemma {:induction false} FirstFromCovers(sorted: seq<KeyInterval>, keyNumber: nat)
    requires SortedBy(sorted, Descending())
    ensures FirstFrom(sorted, keyNumber).None? <==> forall j :: j in sorted ==> j.minKeyNumber > keyNumber
    ensures FirstFrom(sorted, keyNumber).Some? ==> IsValueAt(sorted, keyNumber, FirstFrom(sorted, keyNumber).value)
  {
    if sorted != [] {
      var first, rest := sorted[0], sorted[1..];
      assert sorted == [first] + rest;
      if keyNumber >= first.minKeyNumber {
        assert Covers(sorted, keyNumber, first);
      } else {
        FirstFromCovers(rest, keyNumber);
        if FirstFrom(rest, keyNumber).Some? {
          var i :| Covers(rest, keyNumber, i)
            && FirstFrom(rest, keyNumber).value == i.value as real / 10000.0;
          assert Covers(sorted, keyNumber, i);
        }
      }
    }
  }

  /** The value is that of the interval covering the key; it raises just when the key is below 1 or before them all. */
  lemma {:induction false} GetForCovers(intervals: seq<KeyInterval>, keyNumber: int)
    ensures GetFor(intervals, keyNumber).None? <==>
      keyNumber < 1 || forall j :: j in intervals ==> j.minKeyNumber > keyNumber
    ensures GetFor(intervals, keyNumber).Some? ==> IsValueAt(intervals, keyNumber, GetFor(intervals, keyNumber).value)
  {
    if keyNumber < 1 { return; }
    var sorted := Sort(intervals, Descending());
    SortSorts(intervals, Descending());
    FirstFromCovers(sorted, keyNumber);
    if GetFor(intervals, keyNumber).Some? {
      var i :| Covers(sorted, keyNumber, i)
        && GetFor(intervals, keyNumber).value == i.value as real / 10000.0;
      assert Covers(intervals, keyNumber, i);
    }
  }

  // ----- One validator -----

  datatype FrameValidator = FrameValidator(
    index: ValidatorIndex, pubkey: nat, effectiveBalance: nat, slashed: bool, duties: ValidatorDuties)

  datatype Outcome = Outcome(participationShare: int, rebateShare: int, strikes: nat)

  function Scaled(weight: int, share: real): real {
    weight as real * share
  }

  /** The operator's part of a weight, rounded up. */
  function PartOf(weight: int, rewardShare: real): int {
    Ceil(Scaled(weight, rewardShare))
  }

  /** Whole units of stake, at least the minimum of an active validator. */
  function Multiplier(effectiveBalance: nat): nat {
    Max(MIN_ACTIVATION_BALANCE, effectiveBalance) / EFFECTIVE_BALANCE_INCREMENT
  }

  predicate HasAttestations(v: FrameValidator) {
    v.duties.attestation.Some? && v.duties.attestation.value.assignedCount != 0
  }

  /** What the validator's time in the frame is worth. */
  function Weight(v: FrameValidator): int
    requires v.duties.attestation.Some?
  {
    v.duties.attestation.value.assignedCount * Multiplier(v.effectiveBalance)
  }

  function GetValidatorDutiesOutcome(
      v: FrameValidator, threshold: real, rewardShare: real, coeffs: PerformanceCoefficients)
    : Result<Outcome, DistributionError>
  {
    if !HasAttestations(v) then Success(Outcome(0, 0, 0))
    else if v.slashed then Success(Outcome(0, 0, if threshold > 0.0 then 1 else 0))
    else
      var performance := CalcPerformance(coeffs, v.duties);
      if performance.None? then Failure(BadPerformance)
      else if performance.value >= threshold then
        var participation := PartOf(Weight(v), rewardShare);
        if Weight(v) - participation < 0 then Failure(BadReward)
        else Success(Outcome(participation, Weight(v) - participation, 0))
      else Success(Outcome(0, 0, 1))
  }

  /** A performing validator: not slashed and at or above its threshold. */
  ghost predicate Performs(v: FrameValidator, threshold: real, coeffs: PerformanceCoefficients) {
    && v.duties.attestation.Some? && v.duties.attestation.value.assignedCount != 0 && !v.slashed
    && CalcPerformance(coeffs, v.duties).Some? && CalcPerformance(coeffs, v.duties).value >= threshold
  }

  /** The weight in figures: the assigned attestations times the whole ETH of the effective balance, at least 32. */
  function FullWeight(v: FrameValidator): int
    requires v.duties.attestation.Some?
  {
    v.duties.attestation.value.assignedCount
      * (if v.effectiveBalance <= 32_000_000_000 then 32 else v.effectiveBalance / 1_000_000_000)
  }

  lemma {:induction false} WeightInFigures(v: FrameValidator)
    requires v.duties.attestation.Some?
    ensures Weight(v) == FullWeight(v)
  {
  }

  lemma {:induction false} WeightIsPositive(v: FrameValidator)
    requires HasAttestations(v) && v.duties.attestation.value.Sound()
    ensures Weight(v) >= 32
  {
    var balance := Max(MIN_ACTIVATION_BALANCE, v.effectiveBalance);
    assert balance >= 32 * EFFECTIVE_BALANCE_INCREMENT;
    var m := Multiplier(v.effectiveBalance);
    assert m >= 32;
    assert v.duties.attestation.value.assignedCount * m >= 1 * m;
  }

  lemma {:induction false} ScaleAbove(w: int, share: real)
    requires w > 0
    ensures Scaled(w, share) > w as real <==> share > 1.0
    ensures Scaled(w, share) >= 0.0 <==> share >= 0.0
  {
    assert w as real * share - w as real == w as real * (share - 1.0);
    if share > 1.0 { assert w as real * (share - 1.0) > 0.0; } else { assert w as real * (1.0 - share) >= 0.0; }
    if share < 0.0 { assert w as real * (-share) > 0.0; }
  }

  lemma {:induction false} CeilBounds(w: int, share: real, x: real)
    requires x > w as real <==> share > 1.0
    requires x >= 0.0 <==> share >= 0.0
    ensures w < Ceil(x) <==> share > 1.0
    ensures share >= 0.0 ==> Ceil(x) >= 0
    ensures x <= Ceil(x) as real < x + 1.0
  {
    hide Ceil;
    CeilIsLeast(x, w);
    CeilIsLeast(x, -1);
  }

  lemma {:induction false} PartBounds(w: int, share: real)
    requires w > 0
    ensures w < PartOf(w, share) <==> share > 1.0
    ensures share >= 0.0 ==> PartOf(w, share) >= 0
    ensures IsRoundedUp(PartOf(w, share), Scaled(w, share))
  {
    hide Ceil, Scaled;
    ScaleAbove(w, share);
    CeilBounds(w, share, Scaled(w, share));
  }

  /** A performing validator's weight is split, none of it lost; the split fails just for a share above one. */
  lemma {:induction false} WeightIsSplit(
      v: FrameValidator, threshold: real, rewardShare: real, coeffs: PerformanceCoefficients)
    requires Performs(v, threshold, coeffs) && v.duties.attestation.value.Sound()
    ensures var r := GetValidatorDutiesOutcome(v, threshold, rewardShare, coeffs);
      && (r.Failure? <==> rewardShare > 1.0)
      && (r.Success? ==>
            && r.value.participationShare + r.value.rebateShare == FullWeight(v) && r.value.strikes == 0
            && (rewardShare >= 0.0 ==> r.value.participationShare >= 0) && r.value.rebateShare >= 0
            && IsRoundedUp(r.value.participationShare, FullWeight(v) as real * rewardShare))
  {
    WeightInFigures(v);
    assert Scaled(Weight(v), rewardShare) == FullWeight(v) as real * rewardShare;
    hide CalcPerformance, Multiplier, Weight, PartOf, Scaled, FullWeight;
    WeightIsPositive(v);
    PartBounds(Weight(v), rewardShare);
  }

  ghost predicate IsRoundedUp(n: int, x: real) {
    x <= n as real < x + 1.0
  }

  /** Everyone else brings nothing, and is struck for a poor performance, or for a slashing under a real threshold. */
  lemma {:induction false} OthersBringNothing(
      v: FrameValidator, threshold: real, rewardShare: real, coeffs: PerformanceCoefficients)
    requires !Performs(v, threshold, coeffs)
    ensures var r := GetValidatorDutiesOutcome(v, threshold, rewardShare, coeffs);
      var hasAttestations := v.duties.attestation.Some? && v.duties.attestation.value.assignedCount != 0;
      && (r.Failure? <==> hasAttestations && !v.slashed && CalcPerformance(coeffs, v.duties).None?)
      && (r.Success? ==> r.value.participationShare == 0 && r.value.rebateShare == 0)
      && (r.Success? ==> r.value.strikes == if hasAttestations && (!v.slashed || threshold > 0.0) then 1 else 0)
  {
  }
}
