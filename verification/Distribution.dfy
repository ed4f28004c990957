/** The distribution of staking-module rewards: each frame is split, and nothing is lost from frame to frame. */
module Distribution {
  import opened Wrappers
  import opened ValidatorState
  import opened DutyState
  import opened SetSums
  import opened Sorting
  import opened Rewards
  import opened Outcomes
  import opened Strikes
  import Sums

  datatype CurveParams = CurveParams(
    perfCoeffs: PerformanceCoefficients, perfLeeway: seq<KeyInterval>, rewardShare: seq<KeyInterval>)

  datatype Operator = Operator(noId: OperatorId, validators: seq<FrameValidator>, curve: CurveParams) {
    /** The duty counters are sound, and a validator and a public key occur once. */
    ghost predicate Valid() {
      && (forall i :: 0 <= i < |validators| ==> SoundDuties(validators[i].duties))
      && DistinctBy(validators, IndexOf()) && DistinctBy(validators, PubkeyOf())
    }
  }

  // ----- The active validators of an operator, numbered -----

  predicate IsActiveIn(v: FrameValidator) {
    v.duties.attestation.Some? && v.duties.attestation.value.assignedCount > 0
  }

  function Active(validators: seq<FrameValidator>): seq<FrameValidator> {
    if validators == [] then []
    else (if IsActiveIn(validators[0]) then [validators[0]] else []) + Active(validators[1..])
  }

  /** From the biggest to the smallest balance, then from the oldest to the newest. */
  function Before(): (FrameValidator, FrameValidator) -> bool {
    (a: FrameValidator, b: FrameValidator) =>
      var x := Min(a.effectiveBalance, MAX_EFFECTIVE_BALANCE_ELECTRA);
      var y := Min(b.effectiveBalance, MAX_EFFECTIVE_BALANCE_ELECTRA);
      x > y || (x == y && a.index <= b.index)
  }

  function Numbered(op: Operator): seq<FrameValidator> {
    Sort(Active(op.validators), Before())
  }

  lemma {:induction false} ActiveMembers(validators: seq<FrameValidator>)
    ensures forall v :: v in Active(validators) <==> v in validators && IsActiveIn(v)
  {
    if validators != [] { ActiveMembers(validators[1..]); }
  }

  lemma {:induction false} ActiveDistinct<K>(validators: seq<FrameValidator>, key: FrameValidator -> K)
    requires DistinctBy(validators, key)
    ensures DistinctBy(Active(validators), key)
  {
    if validators != [] {
      var rest := Active(validators[1..]);
      ActiveDistinct(validators[1..], key);
      ActiveMembers(validators[1..]);
      forall j | 0 <= j < |rest| ensures key(validators[0]) != key(rest[j]) {
        assert rest[j] in validators[1..];
      }
    }
  }

  function IndexOf(): FrameValidator -> ValidatorIndex {
    (v: FrameValidator) => v.index
  }

  function PubkeyOf(): FrameValidator -> nat {
    (v: FrameValidator) => v.pubkey
  }

  /** The effective balance, of which no more than 2048 ETH counts. */
  function CountedBalance(v: FrameValidator): nat {
    if v.effectiveBalance > 2048_000_000_000 then 2048_000_000_000 else v.effectiveBalance
  }

  predicate RanksBefore(a: FrameValidator, b: FrameValidator) {
    CountedBalance(a) > CountedBalance(b) || (CountedBalance(a) == CountedBalance(b) && a.index < b.index)
  }

  lemma {:induction false} SortedByRank(sorted: seq<FrameValidator>)
    requires SortedBy(sorted, Before()) && DistinctBy(sorted, IndexOf())
    ensures forall i, j :: 0 <= i < j < |sorted| ==> RanksBefore(sorted[i], sorted[j])
  {
    forall i, j | 0 <= i < j < |sorted| ensures RanksBefore(sorted[i], sorted[j]) {
      assert Before()(sorted[i], sorted[j]) && IndexOf()(sorted[i]) != IndexOf()(sorted[j]);
    }
  }

  /** Numbering keeps exactly the active validators, each once, by descending balance and then by index. */
  lemma {:induction false} NumberedIsValid(op: Operator)
    requires op.Valid()
    ensures forall v :: v in Numbered(op) <==>
      v in op.validators && v.duties.attestation.Some? && v.duties.attestation.value.assignedCount > 0
    ensures DistinctBy(Numbered(op), IndexOf()) && DistinctBy(Numbered(op), PubkeyOf())
    ensures SortedBy(Numbered(op), Before())
    ensures forall i, j :: 0 <= i < j < |Numbered(op)| ==> RanksBefore(Numbered(op)[i], Numbered(op)[j])
    ensures forall k :: 0 <= k < |Numbered(op)| ==> SoundDuties(Numbered(op)[k].duties)
  {
    ActiveMembers(op.validators);
    ActiveDistinct(op.validators, IndexOf());
    ActiveDistinct(op.validators, PubkeyOf());
    SortSorts(Active(op.validators), Before());
    SortKeepsDistinct(Active(op.validators), Before(), IndexOf());
    SortKeepsDistinct(Active(op.validators), Before(), PubkeyOf());
    SortedByRank(Numbered(op));
    forall k | 0 <= k < |Numbered(op)| ensures SoundDuties(Numbered(op)[k].duties) {
      assert Numbered(op)[k] in op.validators;
    }
  }

  // ----- One operator -----

  function Threshold(networkPerf: real, leeway: real): real {
    if networkPerf - leeway > 0.0 then networkPerf - leeway else 0.0
  }

  /** The outcome of an operator's key; keys are numbered from one. */
  function OutcomeOf(op: Operator, networkPerf: real, v: FrameValidator, keyNumber: nat)
    : Result<Outcome, DistributionError>
  {
    var leeway := GetFor(op.curve.perfLeeway, keyNumber);
    if leeway.None? then Failure(NoValueForKey)
    else
      var rewardShare := GetFor(op.curve.rewardShare, keyNumber);
      if rewardShare.None? then Failure(NoValueForKey)
      else GetValidatorDutiesOutcome(v, Threshold(networkPerf, leeway.value), rewardShare.value, op.curve.perfCoeffs)
  }

  /** The key was on duty, is not slashed, and performs no worse than the network by more than its leeway. */
  ghost predicate KeyPerforms(op: Operator, networkPerf: real, v: FrameValidator, keyNumber: nat) {
    var leeway, performance := GetFor(op.curve.perfLeeway, keyNumber), CalcPerformance(op.curve.perfCoeffs, v.duties);
    && v.duties.attestation.Some? && v.duties.attestation.value.assignedCount != 0 && !v.slashed
    && leeway.Some? && performance.Some? && performance.value >= networkPerf - leeway.value
  }

  /** The key performs worse than that; a slashed one is struck whatever it did, unless nothing was asked of it. */
  ghost predicate KeyIsStruck(op: Operator, networkPerf: real, v: FrameValidator, keyNumber: nat) {
    var leeway, performance := GetFor(op.curve.perfLeeway, keyNumber), CalcPerformance(op.curve.perfCoeffs, v.duties);
    && leeway.Some?
    && if v.slashed then networkPerf - leeway.value > 0.0
       else performance.Some? && performance.value < networkPerf - leeway.value
  }

  /** The key takes part with its reward share of its weight, rounded up, or with nothing. */
  ghost predicate IsPartOfKey(op: Operator, networkPerf: real, v: FrameValidator, keyNumber: nat, x: int) {
    if KeyPerforms(op, networkPerf, v, keyNumber) then
      var share := GetFor(op.curve.rewardShare, keyNumber);
      share.Some? && IsRoundedUp(x, FullWeight(v) as real * share.value)
    else x == 0
  }

  ghost function KeyWeight(op: Operator, networkPerf: real, v: FrameValidator, keyNumber: nat): int {
    if KeyPerforms(op, networkPerf, v, keyNumber) then FullWeight(v) else 0
  }

  lemma {:induction false} PerformsByThreshold(
      op: Operator, networkPerf: real, v: FrameValidator, keyNumber: nat, leeway: real)
    requires SoundDuties(v.duties) && GetFor(op.curve.perfLeeway, keyNumber) == Some(leeway)
    ensures KeyPerforms(op, networkPerf, v, keyNumber)
      <==> Performs(v, Threshold(networkPerf, leeway), op.curve.perfCoeffs)
    ensures KeyIsStruck(op, networkPerf, v, keyNumber) <==>
      (if v.slashed then Threshold(networkPerf, leeway) > 0.0
       else (CalcPerformance(op.curve.perfCoeffs, v.duties).Some?
             && CalcPerformance(op.curve.perfCoeffs, v.duties).value < Threshold(networkPerf, leeway)))
  {
    hide CalcPerformance, GetFor, SoundDuties, Base;
    PerformanceIsAFraction(op.curve.perfCoeffs, v.duties);
  }

  /** The first `n` keys have outcomes. */
  ghost predicate Evaluates(op: Operator, networkPerf: real, n: nat)
    requires n <= |Numbered(op)|
  {
    forall k :: 0 <= k < n ==> OutcomeOf(op, networkPerf, Numbered(op)[k], k + 1).Success?
  }

  /** The weight of the performing keys among the first `n`. */
  ghost function PerformingWeight(op: Operator, networkPerf: real, n: nat): int
    requires n <= |Numbered(op)|
  {
    if n == 0 then 0
    else
      PerformingWeight(op, networkPerf, n - 1) + KeyWeight(op, networkPerf, Numbered(op)[n - 1], n)
  }

  ghost predicate IsStruckBelow(op: Operator, networkPerf: real, n: nat, pubkey: nat)
    requires n <= |Numbered(op)|
  {
    exists k :: 0 <= k < n && Numbered(op)[k].pubkey == pubkey && KeyIsStruck(op, networkPerf, Numbered(op)[k], k + 1)
  }

  lemma {:induction false} SharesAreNonNegative(intervals: seq<KeyInterval>, keyNumber: nat)
    ensures GetFor(intervals, keyNumber).Some? ==> GetFor(intervals, keyNumber).value >= 0.0
  {
    GetForCovers(intervals, keyNumber);
  }

  /** A key's participation and rebate make up its weight if it performs, and are nothing otherwise. */
  lemma {:induction false} OutcomeAccounts(op: Operator, networkPerf: real, v: FrameValidator, keyNumber: nat)
    requires SoundDuties(v.duties) && IsActiveIn(v) && OutcomeOf(op, networkPerf, v, keyNumber).Success?
    ensures var o := OutcomeOf(op, networkPerf, v, keyNumber).value;
      && o.participationShare >= 0 && o.rebateShare >= 0 && o.strikes <= 1
      && o.participationShare + o.rebateShare == KeyWeight(op, networkPerf, v, keyNumber)
      && IsPartOfKey(op, networkPerf, v, keyNumber, o.participationShare)
      && (o.strikes == 1 <==> KeyIsStruck(op, networkPerf, v, keyNumber))
  {
    var l := GetFor(op.curve.perfLeeway, keyNumber);
    PerformsByThreshold(op, networkPerf, v, keyNumber, l.value);
    PerformanceIsAFraction(op.curve.perfCoeffs, v.duties);
    hide KeyPerforms, KeyIsStruck, GetFor, Threshold, GetValidatorDutiesOutcome, FullWeight, CalcPerformance, Base;
    SharesAreNonNegative(op.curve.rewardShare, keyNumber);
    var leeway, rewardShare := GetFor(op.curve.perfLeeway, keyNumber), GetFor(op.curve.rewardShare, keyNumber);
    var threshold := Threshold(networkPerf, leeway.value);
    if Performs(v, threshold, op.curve.perfCoeffs) {
      WeightIsSplit(v, threshold, rewardShare.value, op.curve.perfCoeffs);
    } else {
      OthersBringNothing(v, threshold, rewardShare.value, op.curve.perfCoeffs);
    }
  }

  datatype OperatorFrame = OperatorFrame(
    participation: map<ValidatorIndex, nat>, rebateShare: nat, strikes: map<nat, nat>)

  /** What has been collected from the first `n` keys. */
  ghost predicate Collected(op: Operator, networkPerf: real, n: nat, f: OperatorFrame)
    requires n <= |Numbered(op)|
  {
    && MapSum(f.participation) + f.rebateShare == PerformingWeight(op, networkPerf, n)
    && IsParticipation(op, networkPerf, n, f.participation)
    && (forall p :: p in f.strikes <==> IsStruckBelow(op, networkPerf, n, p))
    && forall p :: p in f.strikes ==> f.strikes[p] == 1
  }

  ghost predicate IsParticipationOf(op: Operator, networkPerf: real, k: nat, participation: map<ValidatorIndex, nat>)
    requires k < |Numbered(op)|
  {
    var v := Numbered(op)[k];
    v.index in participation && IsPartOfKey(op, networkPerf, v, k + 1, participation[v.index])
  }

  /** The first `n` keys, and no other validator, take part with their outcomes. */
  ghost predicate IsParticipation(op: Operator, networkPerf: real, n: nat, participation: map<ValidatorIndex, nat>)
    requires n <= |Numbered(op)|
  {
    && (forall i :: i in participation <==> exists k :: 0 <= k < n && Numbered(op)[k].index == i)
    && forall k :: 0 <= k < n ==> IsParticipationOf(op, networkPerf, k, participation)
  }

  function WithOutcome(f: OperatorFrame, v: FrameValidator, o: Outcome): OperatorFrame
    requires o.participationShare >= 0 && o.rebateShare >= 0
  {
    OperatorFrame(f.participation[v.index := o.participationShare], f.rebateShare + o.rebateShare,
      if o.strikes != 0 then f.strikes[v.pubkey := o.strikes] else f.strikes)
  }

  lemma {:induction false} OneMoreStrike(op: Operator, networkPerf: real, n: nat, p: nat)
    requires n < |Numbered(op)|
    ensures IsStruckBelow(op, networkPerf, n + 1, p) <==>
      IsStruckBelow(op, networkPerf, n, p)
      || (Numbered(op)[n].pubkey == p && KeyIsStruck(op, networkPerf, Numbered(op)[n], n + 1))
  {
    hide KeyIsStruck, Numbered;
  }

  lemma {:induction false} OneMoreParticipates(
      op: Operator, networkPerf: real, n: nat, participation: map<ValidatorIndex, nat>, o: Outcome)
    requires n < |Numbered(op)| && IsParticipation(op, networkPerf, n, participation)
    requires Numbered(op)[n].index !in participation && o.participationShare >= 0
    requires IsPartOfKey(op, networkPerf, Numbered(op)[n], n + 1, o.participationShare)
    ensures IsParticipation(op, networkPerf, n + 1, participation[Numbered(op)[n].index := o.participationShare])
  {
    hide IsPartOfKey, Numbered;
    var more := participation[Numbered(op)[n].index := o.participationShare];
    forall k | 0 <= k < n + 1 ensures IsParticipationOf(op, networkPerf, k, more) {
      if k < n {
        assert IsParticipationOf(op, networkPerf, k, participation);
        assert Numbered(op)[k].index in participation;
      }
    }
    forall i ensures i in more <==> exists k :: 0 <= k < n + 1 && Numbered(op)[k].index == i {
      if i in participation {
        var k :| 0 <= k < n && Numbered(op)[k].index == i;
      }
    }
  }

  lemma {:induction false} CollectOne(op: Operator, networkPerf: real, n: nat, f: OperatorFrame, o: Outcome)
    requires op.Valid() && n < |Numbered(op)| && Collected(op, networkPerf, n, f)
    requires OutcomeOf(op, networkPerf, Numbered(op)[n], n + 1) == Success(o)
    ensures o.participationShare >= 0 && o.rebateShare >= 0
    ensures Collected(op, networkPerf, n + 1, WithOutcome(f, Numbered(op)[n], o))
  {
    hide OutcomeOf, KeyPerforms, KeyIsStruck, IsPartOfKey, KeyWeight, IsParticipationOf, MapSum, Numbered,
      IsStruckBelow, Operator.Valid, SoundDuties;
    NumberedIsValid(op);
    var v := Numbered(op)[n];
    assert v in Numbered(op);
    OutcomeAccounts(op, networkPerf, v, n + 1);
    assert v.index !in f.participation by {
      forall k | 0 <= k < n ensures Numbered(op)[k].index != v.index {
        assert IndexOf()(Numbered(op)[k]) != IndexOf()(Numbered(op)[n]);
      }
    }
    MapSumPut(f.participation, v.index, o.participationShare);
    var f' := WithOutcome(f, v, o);
    OneMoreParticipates(op, networkPerf, n, f.participation, o);
    forall p ensures p in WithOutcome(f, v, o).strikes <==> IsStruckBelow(op, networkPerf, n + 1, p) {
      OneMoreStrike(op, networkPerf, n, p);
    }
  }

  method EvaluateOperator(op: Operator, networkPerf: real) returns (r: Result<OperatorFrame, DistributionError>)
    requires op.Valid()
    ensures r.Success? <==> Evaluates(op, networkPerf, |Numbered(op)|)
    ensures r.Success? ==> Collected(op, networkPerf, |Numbered(op)|, r.value)
  {
    hide OutcomeOf, Numbered, Collected, WithOutcome, Operator.Valid;
    var active := Numbered(op);
    var collected := OperatorFrame(map[], 0, map[]);
    assert Collected(op, networkPerf, 0, collected) by { NothingCollected(op, networkPerf); }
    for n := 0 to |active|
      invariant Evaluates(op, networkPerf, n) && Collected(op, networkPerf, n, collected)
    {
      var outcome := OutcomeOf(op, networkPerf, active[n], n + 1);
      if outcome.Failure? {
        return Failure(outcome.error);
      }
      CollectOne(op, networkPerf, n, collected, outcome.value);
      collected := WithOutcome(collected, active[n], outcome.value);
    }
    return Success(collected);
  }

  lemma {:induction false} NothingCollected(op: Operator, networkPerf: real)
    ensures Collected(op, networkPerf, 0, OperatorFrame(map[], 0, map[]))
  {
    MapSumEmpty<ValidatorIndex>();
  }

  // ----- One frame -----

  ghost predicate OperatorsValid(operators: seq<Operator>) {
    && (forall i :: 0 <= i < |operators| ==> operators[i].Valid())
    && forall i, j :: 0 <= i < j < |operators| ==> operators[i].noId != operators[j].noId
  }

  ghost predicate AllEvaluate(operators: seq<Operator>, networkPerf: real, n: nat)
    requires n <= |operators|
  {
    forall i :: 0 <= i < n ==> Evaluates(operators[i], networkPerf, |Numbered(operators[i])|)
  }

  ghost function FrameWeight(operators: seq<Operator>, networkPerf: real, n: nat): int
    requires n <= |operators|
  {
    if n == 0 then 0
    else
      FrameWeight(operators, networkPerf, n - 1)
      + PerformingWeight(operators[n - 1], networkPerf, |Numbered(operators[n - 1])|)
  }

  /** An operator takes part with exactly its active validators, each with its outcome; without any it is left out. */
  ghost predicate TakesPart(op: Operator, networkPerf: real, shares: Participation) {
    if Numbered(op) == [] then op.noId !in shares
    else op.noId in shares && IsParticipation(op, networkPerf, |Numbered(op)|, shares[op.noId])
  }

  ghost predicate IsStruckIn(operators: seq<Operator>, networkPerf: real, n: nat, key: StrikesValidator)
    requires n <= |operators|
  {
    exists i :: 0 <= i < n && operators[i].noId == key.noId
      && IsStruckBelow(operators[i], networkPerf, |Numbered(operators[i])|, key.pubkey)
  }

  /** What the loop over the first `n` operators keeps. */
  ghost predicate Gathered(
      operators: seq<Operator>, networkPerf: real, n: nat,
      shares: Participation, rebateShare: nat, strikes: InFrame)
    requires n <= |operators|
  {
    && TotalShares(shares, rebateShare) == FrameWeight(operators, networkPerf, n)
    && (forall i :: 0 <= i < n ==> TakesPart(operators[i], networkPerf, shares))
    && (forall op :: op in shares ==> exists i :: 0 <= i < n && operators[i].noId == op)
    && (forall key :: key in strikes <==> IsStruckIn(operators, networkPerf, n, key))
    && forall key :: key in strikes ==> strikes[key] == 1
  }

  lemma {:induction false} PaidPut(shares: Participation, op: OperatorId, m: map<ValidatorIndex, nat>)
    requires op !in shares
    ensures MapSum(PaidOf(shares[op := m])) == MapSum(PaidOf(shares)) + MapSum(m)
  {
    hide MapSum;
    if MapSum(m) == 0 {
      assert PaidOf(shares[op := m]) == PaidOf(shares);
    } else {
      MapSumPut(PaidOf(shares), op, MapSum(m));
      assert PaidOf(shares[op := m]) == PaidOf(shares)[op := MapSum(m)];
    }
  }

  method AddStrikes(strikes: InFrame, noId: OperatorId, struck: map<nat, nat>) returns (r: InFrame)
    requires forall p :: p in struck ==> struck[p] == 1
    requires forall key :: key in strikes ==> strikes[key] == 1
    ensures forall key :: key in r <==> key in strikes || (key.noId == noId && key.pubkey in struck)
    ensures forall key :: key in r ==> r[key] == 1
  {
    r := strikes;
    var pubkeys := struck.Keys;
    while pubkeys != {}
      invariant pubkeys <= struck.Keys
      invariant forall key :: key in r <==>
        key in strikes || (key.noId == noId && key.pubkey in struck && key.pubkey !in pubkeys)
      invariant forall key :: key in r ==> r[key] == 1
      decreases |pubkeys|
    {
      var p :| p in pubkeys;
      pubkeys := pubkeys - {p};
      r := r[StrikesValidator(noId, p) := struck[p]];
    }
  }

  lemma {:induction false} OneMoreOperator(operators: seq<Operator>, networkPerf: real, n: nat, key: StrikesValidator)
    requires n < |operators|
    ensures IsStruckIn(operators, networkPerf, n + 1, key) <==>
      IsStruckIn(operators, networkPerf, n, key)
      || (key.noId == operators[n].noId
          && IsStruckBelow(operators[n], networkPerf, |Numbered(operators[n])|, key.pubkey))
  {
    hide IsStruckBelow, Numbered;
  }

  lemma {:induction false} OthersTakePart(
      op: Operator, networkPerf: real, shares: Participation, other: OperatorId, m: map<ValidatorIndex, nat>)
    requires TakesPart(op, networkPerf, shares) && op.noId != other
    ensures TakesPart(op, networkPerf, shares[other := m])
  {
    hide Numbered, IsParticipation;
  }

  lemma {:induction false} NewTakesPart(op: Operator, networkPerf: real, shares: Participation, f: OperatorFrame)
    requires Collected(op, networkPerf, |Numbered(op)|, f) && op.noId !in shares
    ensures TakesPart(op, networkPerf, if f.participation == map[] then shares else shares[op.noId := f.participation])
  {
    hide Numbered, IsParticipationOf, IsStruckBelow, PerformingWeight, MapSum;
    if Numbered(op) != [] {
      assert Numbered(op)[0].index in f.participation;
    } else {
      assert f.participation.Keys == {};
    }
  }

  lemma {:induction false} GatherOne(
      operators: seq<Operator>, networkPerf: real, n: nat,
      shares: Participation, rebateShare: nat, strikes: InFrame, f: OperatorFrame, strikes': InFrame)
    requires OperatorsValid(operators) && n < |operators|
    requires Gathered(operators, networkPerf, n, shares, rebateShare, strikes)
    requires Collected(operators[n], networkPerf, |Numbered(operators[n])|, f)
    requires forall key :: key in strikes' <==>
      key in strikes || (key.noId == operators[n].noId && key.pubkey in f.strikes)
    requires forall key :: key in strikes' ==> strikes'[key] == 1
    ensures Gathered(operators, networkPerf, n + 1,
      if f.participation == map[] then shares else shares[operators[n].noId := f.participation],
      rebateShare + f.rebateShare, strikes')
  {
    hide MapSum, Numbered, IsStruckBelow, IsStruckIn, IsParticipationOf, PerformingWeight, PaidOf, Operator.Valid,
      TakesPart;
    var op := operators[n];
    assert op.noId !in shares;
    PaidPut(shares, op.noId, f.participation);
    MapSumEmpty<ValidatorIndex>();
    forall key ensures key in strikes' <==> IsStruckIn(operators, networkPerf, n + 1, key) {
      OneMoreOperator(operators, networkPerf, n, key);
      assert key.pubkey in f.strikes <==> IsStruckBelow(op, networkPerf, |Numbered(op)|, key.pubkey);
    }
    var shares' := if f.participation == map[] then shares else shares[op.noId := f.participation];
    forall i | 0 <= i < n + 1 ensures TakesPart(operators[i], networkPerf, shares') {
      if i < n {
        OthersTakePart(operators[i], networkPerf, shares, op.noId, f.participation);
      } else {
        NewTakesPart(op, networkPerf, shares, f);
      }
    }
    forall o | o in shares' ensures exists i :: 0 <= i < n + 1 && operators[i].noId == o {
      if o in shares {
        var i :| 0 <= i < n && operators[i].noId == o;
      } else {
        assert operators[n].noId == o;
      }
    }
  }

  method GatherParticipation(operators: seq<Operator>, networkPerf: real)
    returns (r: Result<(Participation, nat, InFrame), DistributionError>)
    requires OperatorsValid(operators)
    ensures r.Success? <==> AllEvaluate(operators, networkPerf, |operators|)
    ensures r.Success? ==>
      Gathered(operators, networkPerf, |operators|, r.value.0, r.value.1, r.value.2)
  {
    hide Evaluates, Collected, Numbered, Operator.Valid, Gathered;
    var shares: Participation, rebateShare: nat, strikes: InFrame := map[], 0, map[];
    assert Gathered(operators, networkPerf, 0, shares, rebateShare, strikes) by {
      NothingGathered(operators, networkPerf);
    }
    for n := 0 to |operators|
      invariant AllEvaluate(operators, networkPerf, n)
      invariant Gathered(operators, networkPerf, n, shares, rebateShare, strikes)
      invariant forall key :: key in strikes ==> strikes[key] == 1
    {
      var op := operators[n];
      var frame := EvaluateOperator(op, networkPerf);
      if frame.Failure? {
        return Failure(frame.error);
      }
      assert forall p :: p in frame.value.strikes ==> frame.value.strikes[p] == 1 by {
        StrikesAreOnes(op, networkPerf, frame.value);
      }
      var struck := AddStrikes(strikes, op.noId, frame.value.strikes);
      GatherOne(operators, networkPerf, n, shares, rebateShare, strikes, frame.value, struck);
      shares := if frame.value.participation == map[] then shares else shares[op.noId := frame.value.participation];
      rebateShare := rebateShare + frame.value.rebateShare;
      strikes := struck;
    }
    return Success((shares, rebateShare, strikes));
  }

  lemma {:induction false} StrikesAreOnes(op: Operator, networkPerf: real, f: OperatorFrame)
    requires Collected(op, networkPerf, |Numbered(op)|, f)
    ensures forall p :: p in f.strikes ==> f.strikes[p] == 1
  {
  }

  lemma {:induction false} NothingGathered(operators: seq<Operator>, networkPerf: real)
    ensures Gathered(operators, networkPerf, 0, map[], 0, map[])
  {
    MapSumEmpty<OperatorId>();
    assert PaidOf(map[]) == map[];
  }

  // ----- A frame's distribution -----

  datatype FrameInput = FrameInput(
    operators: seq<Operator>, aggregates: ValidatorDuties, sharesToDistribute: nat, lifetime: nat -> nat)
  {
    ghost predicate Valid() {
      OperatorsValid(operators)
    }

    /** The network performance is defined, and so is the outcome of every active key. */
    ghost predicate Computes() {
      && CalcPerformance(DEFAULT_COEFFICIENTS, aggregates).Some?
      && AllEvaluate(operators, NetworkPerf(this), |operators|)
    }
  }

  function NetworkPerf(frame: FrameInput): real {
    var performance := CalcPerformance(DEFAULT_COEFFICIENTS, frame.aggregates);
    if performance.Some? then performance.value else 0.0
  }

  datatype FrameResult = FrameResult(
    rewards: map<OperatorId, int>, distributed: int, rebate: int, strikes: InFrame)

  /**
   What a frame's result must be: the rewards are the proportional parts of all performing weight, rewards and
   rebate add up to what there was to distribute, and the strikes are those of the struck keys.
   */
  ghost predicate IsFrameResult(frame: FrameInput, rewards: int, shares: Participation, rebateShare: nat, r: FrameResult) {
    && rewards >= 0
    && Gathered(frame.operators, NetworkPerf(frame), |frame.operators|, shares, rebateShare, r.strikes)
    && IsDistribution(shares, rebateShare, rewards, r.rewards)
    && r.distributed == MapSum(r.rewards) && r.distributed + r.rebate == rewards
    && 0 <= r.distributed && 0 <= r.rebate
  }

  lemma {:induction false} SameParticipation(
      op: Operator, networkPerf: real, a: map<ValidatorIndex, nat>, b: map<ValidatorIndex, nat>)
    requires IsParticipation(op, networkPerf, |Numbered(op)|, a) && IsParticipation(op, networkPerf, |Numbered(op)|, b)
    ensures a == b
  {
    hide GetFor, KeyPerforms, FullWeight, Numbered;
    forall i | i in a ensures a[i] == b[i] {
      var k :| 0 <= k < |Numbered(op)| && Numbered(op)[k].index == i;
      assert IsParticipationOf(op, networkPerf, k, a) && IsParticipationOf(op, networkPerf, k, b);
    }
  }

  lemma {:induction false} SameShares(
      operators: seq<Operator>, networkPerf: real,
      a: Participation, x: nat, strikesA: InFrame, b: Participation, y: nat, strikesB: InFrame)
    requires Gathered(operators, networkPerf, |operators|, a, x, strikesA)
    requires Gathered(operators, networkPerf, |operators|, b, y, strikesB)
    ensures a == b && x == y && strikesA == strikesB
  {
    hide Numbered, IsParticipation, IsStruckIn, FrameWeight, PaidOf, MapSum;
    forall o ensures o in a <==> o in b {
      if o in a || o in b {
        var i :| 0 <= i < |operators| && operators[i].noId == o;
        assert TakesPart(operators[i], networkPerf, a) && TakesPart(operators[i], networkPerf, b);
      }
    }
    forall o | o in a ensures a[o] == b[o] {
      var i :| 0 <= i < |operators| && operators[i].noId == o;
      assert TakesPart(operators[i], networkPerf, a) && TakesPart(operators[i], networkPerf, b);
      SameParticipation(operators[i], networkPerf, a[o], b[o]);
    }
    assert forall key :: key in strikesA <==> key in strikesB;
  }

  /** The frame and its rewards determine who gets what, the rebate and the strikes. */
  lemma {:induction false} FrameResultIsUnique(
      frame: FrameInput, rewards: int, a: Participation, x: nat, r: FrameResult, b: Participation, y: nat, t: FrameResult)
    requires IsFrameResult(frame, rewards, a, x, r) && IsFrameResult(frame, rewards, b, y, t)
    ensures a == b && x == y && r == t
  {
    hide Gathered, PaidOf, TotalShares, MapSum, Portion, CalcPerformance;
    SameShares(frame.operators, NetworkPerf(frame), a, x, r.strikes, b, y, t.strikes);
    assert r.rewards == t.rewards by {
      assert r.rewards.Keys == t.rewards.Keys;
      forall op | op in r.rewards ensures r.rewards[op] == t.rewards[op] {
        assert IsPortion(rewards, PaidOf(a)[op], TotalShares(a, x), r.rewards[op]);
        assert IsPortion(rewards, PaidOf(a)[op], TotalShares(a, x), t.rewards[op]);
      }
    }
  }

  method CalculateDistributionInFrame(frame: FrameInput, rewards: int)
    returns (r: Result<FrameResult, DistributionError>, ghost shares: Participation, ghost rebateShare: nat)
    requires frame.Valid()
    ensures r.Success? <==> frame.Computes() && rewards >= 0
    ensures r.Success? ==> IsFrameResult(frame, rewards, shares, rebateShare, r.value)
  {
    hide CalcPerformance, AllEvaluate, Gathered, MapSum, IsDistribution, OperatorsValid;
    shares, rebateShare := map[], 0;
    var networkPerf := CalcPerformance(DEFAULT_COEFFICIENTS, frame.aggregates);
    if networkPerf.None? {
      r := Failure(BadPerformance);
      return;
    }
    var gathered := GatherParticipation(frame.operators, networkPerf.value);
    if gathered.Failure? {
      r := Failure(gathered.error);
      return;
    }
    shares, rebateShare := gathered.value.0, gathered.value.1;
    var distribution := CalcRewardsDistributionInFrame(gathered.value.0, gathered.value.1, rewards);
    if distribution.Failure? {
      r := Failure(distribution.error);
      return;
    }
    SplitBounds(shares, rebateShare, rewards, distribution.value);
    var distributed := SumValues(distribution.value);
    r := Success(FrameResult(distribution.value, distributed, rewards - distributed, gathered.value.2));
  }

  // ----- All frames -----

  predicate ValidDistribution(totalRewards: int, totalRebate: int, toDistribute: int) {
    && totalRewards + totalRebate <= toDistribute
    && !(toDistribute != 0 && totalRewards == 0 && totalRebate == 0)
  }

  lemma {:induction false} AddTo(m: map<OperatorId, int>, op: OperatorId, x: int)
    ensures MapSum(m[op := ValueIn(m)(op) + x]) == MapSum(m) + x
    ensures ValueIn(m)(op) == if op in m then m[op] else 0
    ensures forall o :: ValueIn(m[op := ValueIn(m)(op) + x])(o) == ValueIn(m)(o) + if o == op then x else 0
  {
    hide MapSum;
    if op in m {
      MapSumChange(m, op, m[op] + x);
    } else {
      MapSumPut(m, op, x);
    }
  }

  /** `r` is `totals` with the rewards of every operator outside `ops` added. */
  ghost predicate PartlyAdded(
      totals: map<OperatorId, int>, rewards: map<OperatorId, int>, ops: set<OperatorId>, r: map<OperatorId, int>)
  {
    && (forall op :: ValueIn(r)(op) == ValueIn(totals)(op) + if op in ops then 0 else ValueIn(rewards)(op))
    && MapSum(r) + SetSum(ops, ValueIn(rewards)) == MapSum(totals) + MapSum(rewards)
  }

  lemma {:induction false} NoneAdded(totals: map<OperatorId, int>, rewards: map<OperatorId, int>)
    ensures PartlyAdded(totals, rewards, rewards.Keys, totals)
  {
  }

  lemma {:induction false} AddOne(
      totals: map<OperatorId, int>, rewards: map<OperatorId, int>, ops: set<OperatorId>, r: map<OperatorId, int>,
      op: OperatorId)
    requires PartlyAdded(totals, rewards, ops, r) && op in ops && op in rewards
    ensures PartlyAdded(totals, rewards, ops - {op}, r[op := ValueIn(r)(op) + rewards[op]])
  {
    hide MapSum, SetSum;
    AddTo(r, op, rewards[op]);
    TakeOff(ops, op, ValueIn(rewards));
    assert ValueIn(rewards)(op) == rewards[op];
  }

  lemma {:induction false} AllAdded(
      totals: map<OperatorId, int>, rewards: map<OperatorId, int>, r: map<OperatorId, int>)
    requires PartlyAdded(totals, rewards, {}, r)
    ensures MapSum(r) == MapSum(totals) + MapSum(rewards)
    ensures forall op :: ValueIn(r)(op) == ValueIn(totals)(op) + ValueIn(rewards)(op)
  {
  }

  method AddRewards(totals: map<OperatorId, int>, rewards: map<OperatorId, int>) returns (r: map<OperatorId, int>)
    ensures MapSum(r) == MapSum(totals) + MapSum(rewards)
    ensures forall op :: ValueIn(r)(op) == ValueIn(totals)(op) + ValueIn(rewards)(op)
  {
    hide MapSum, ValueIn, PartlyAdded;
    r := totals;
    var ops := rewards.Keys;
    NoneAdded(totals, rewards);
    while ops != {}
      invariant ops <= rewards.Keys && PartlyAdded(totals, rewards, ops, r)
      decreases |ops|
    {
      var op :| op in ops;
      AddOne(totals, rewards, ops, r, op);
      AddTo(r, op, rewards[op]);
      r := r[op := (if op in r then r[op] else 0) + rewards[op]];
      ops := ops - {op};
    }
    AllAdded(totals, rewards, r);
  }

  function Total(rewards: seq<(OperatorId, nat)>): nat {
    if rewards == [] then 0 else rewards[0].1 + Total(rewards[1..])
  }

  datatype DistributionResult = DistributionResult(
    totalRewards: int, totalRebate: int, totalRewardsMap: map<OperatorId, int>, strikes: Stored)

  /** What had been given out before frame `n`. */
  function SharesBefore(frames: seq<FrameInput>, n: nat): nat
    requires n <= |frames|
  {
    if n == 0 then 0 else frames[n - 1].sharesToDistribute
  }

  ghost predicate FramesCompute(frames: seq<FrameInput>, n: nat)
    requires n <= |frames|
  {
    forall i :: 0 <= i < n ==> frames[i].Computes() && frames[i].sharesToDistribute >= SharesBefore(frames, i)
  }

  /** How a frame was split: the shares that took part, and the result. */
  datatype FrameBooks = FrameBooks(shares: Participation, rebateShare: nat, result: FrameResult)

  ghost predicate BooksFollow(frames: seq<FrameInput>, n: nat, books: seq<FrameBooks>)
    requires n <= |frames|
  {
    && |books| == n
    && forall i :: 0 <= i < n ==> IsFrameResult(frames[i], frames[i].sharesToDistribute - SharesBefore(frames, i),
                                    books[i].shares, books[i].rebateShare, books[i].result)
  }

  /** The frames determine their books, and with them what every operator earns. */
  lemma {:induction false} BooksAreUnique(frames: seq<FrameInput>, n: nat, a: seq<FrameBooks>, b: seq<FrameBooks>)
    requires n <= |frames| && BooksFollow(frames, n, a) && BooksFollow(frames, n, b)
    ensures a == b
  {
    hide IsFrameResult;
    forall i | 0 <= i < n ensures a[i] == b[i] {
      FrameResultIsUnique(frames[i], frames[i].sharesToDistribute - SharesBefore(frames, i),
        a[i].shares, a[i].rebateShare, a[i].result, b[i].shares, b[i].rebateShare, b[i].result);
    }
  }

  /** What an operator has earned in the frames of the books. */
  ghost function Earned(books: seq<FrameBooks>, op: OperatorId): int {
    if books == [] then 0
    else Earned(books[..|books| - 1], op) + ValueIn(books[|books| - 1].result.rewards)(op)
  }

  ghost function StrikeFrames(frames: seq<FrameInput>, books: seq<FrameBooks>): seq<StrikeFrame>
    requires |books| <= |frames|
  {
    seq(|books|, i requires 0 <= i < |books| => StrikeFrame(books[i].result.strikes, frames[i].lifetime))
  }

  lemma {:induction false} OneMoreStrikeFrame(
      frames: seq<FrameInput>, books: seq<FrameBooks>, accs: seq<Stored>, book: FrameBooks, strikes: Stored)
    requires |books| < |frames| && IsRun(StrikeFrames(frames, books), accs)
    requires forall key: StrikesValidator ::
      Shifted(accs[|books|], book.result.strikes, frames[|books|].lifetime(key.noId), strikes, key)
    ensures IsRun(StrikeFrames(frames, books + [book]), accs + [strikes])
  {
    hide Shifted;
    var n, before, after := |books|, StrikeFrames(frames, books), StrikeFrames(frames, books + [book]);
    var accs' := accs + [strikes];
    forall k, key: StrikesValidator | 0 <= k < n + 1
      ensures Shifted(accs'[k], after[k].strikes, after[k].lifetime(key.noId), accs'[k + 1], key)
    {
      if k < n {
        assert Shifted(accs[k], before[k].strikes, before[k].lifetime(key.noId), accs[k + 1], key);
      }
    }
  }

  /** The books after some frames: all that was available has been given out. */
  ghost predicate Balanced(acc: DistributionResult, distributed: int) {
    && acc.totalRewards + acc.totalRebate == distributed
    && acc.totalRewards >= 0 && acc.totalRebate >= 0
    && MapSum(acc.totalRewardsMap) == acc.totalRewards
  }

  /** One turn of the loop over the frames. */
  method DistributeFrame(frame: FrameInput, acc: DistributionResult, distributedSoFar: nat)
    returns (r: Result<DistributionResult, DistributionError>, ghost book: FrameBooks)
    requires frame.Valid() && Balanced(acc, distributedSoFar)
    ensures r.Success? <==> frame.Computes() && frame.sharesToDistribute >= distributedSoFar
    ensures r.Success? ==> Balanced(r.value, frame.sharesToDistribute)
    ensures r.Success? ==> IsFrameResult(frame, frame.sharesToDistribute - distributedSoFar,
      book.shares, book.rebateShare, book.result)
    ensures r.Success? ==> forall op ::
      ValueIn(r.value.totalRewardsMap)(op) == ValueIn(acc.totalRewardsMap)(op) + ValueIn(book.result.rewards)(op)
    ensures r.Success? ==> forall key: StrikesValidator ::
      Shifted(acc.strikes, book.result.strikes, frame.lifetime(key.noId), r.value.strikes, key)
  {
    hide MapSum, IsDistribution, Gathered, Shifted, FrameInput.Computes, FrameInput.Valid, ValueIn;
    book := FrameBooks(map[], 0, FrameResult(map[], 0, 0, map[]));
    var toDistribute := frame.sharesToDistribute;
    var result, shares, rebateShare := CalculateDistributionInFrame(frame, toDistribute - distributedSoFar);
    if result.Failure? {
      r := Failure(result.error);
      return;
    }
    book := FrameBooks(shares, rebateShare, result.value);
    var strikes := ProcessStrikes(acc.strikes, result.value.strikes, frame.lifetime);
    var totalRewards := acc.totalRewards + result.value.distributed;
    var totalRebate := acc.totalRebate + result.value.rebate;
    if !ValidDistribution(totalRewards, totalRebate, toDistribute) {
      assert false;
    }
    var totals := AddRewards(acc.totalRewardsMap, result.value.rewards);
    r := Success(DistributionResult(totalRewards, totalRebate, totals, strikes));
  }

  ghost function LastOf(rewards: seq<(OperatorId, nat)>, op: OperatorId): nat {
    if rewards == [] then 0
    else
      var last := rewards[|rewards| - 1];
      LastOf(rewards[..|rewards| - 1], op) + (if last.0 == op then last.1 else 0)
  }

  method AddLastRewards(totals: map<OperatorId, int>, lastRewards: seq<(OperatorId, nat)>)
    returns (r: map<OperatorId, int>)
    ensures MapSum(r) == MapSum(totals) + Total(lastRewards)
    ensures forall op :: ValueIn(r)(op) == ValueIn(totals)(op) + LastOf(lastRewards, op)
  {
    hide MapSum, ValueIn;
    r := totals;
    for n := 0 to |lastRewards|
      invariant MapSum(r) == MapSum(totals) + Total(lastRewards[..n])
      invariant forall op :: ValueIn(r)(op) == ValueIn(totals)(op) + LastOf(lastRewards[..n], op)
    {
      var op, rewards := lastRewards[n].0, lastRewards[n].1;
      AddTo(r, op, rewards);
      TotalOneMore(lastRewards, n);
      assert lastRewards[..n + 1][..n] == lastRewards[..n];
      r := r[op := (if op in r then r[op] else 0) + rewards];
    }
    assert lastRewards[..|lastRewards|] == lastRewards;
  }

  /**
   The whole calculation succeeds just when every frame computes and the contract's figure never goes down. Then
   rewards and rebate add up to the last figure, every operator has what the frames and the last report gave it,
   and the strikes follow the frames.
   */
  method Calculate(frames: seq<FrameInput>, lastStrikes: Stored, lastRewards: seq<(OperatorId, nat)>)
    returns (r: Result<DistributionResult, DistributionError>,
      ghost books: seq<FrameBooks>, ghost accs: seq<Stored>)
    requires forall i :: 0 <= i < |frames| ==> frames[i].Valid()
    ensures r.Success? <==> FramesCompute(frames, |frames|)
    ensures r.Success? ==>
      r.value.totalRewards + r.value.totalRebate == SharesBefore(frames, |frames|)
      && r.value.totalRewards >= 0 && r.value.totalRebate >= 0
    ensures r.Success? ==> MapSum(r.value.totalRewardsMap) == r.value.totalRewards + Total(lastRewards)
    ensures r.Success? ==> BooksFollow(frames, |frames|, books)
    ensures r.Success? ==> forall op ::
      ValueIn(r.value.totalRewardsMap)(op) == Earned(books, op) + LastOf(lastRewards, op)
    ensures r.Success? ==>
      IsRun(StrikeFrames(frames, books), accs) && accs[0] == lastStrikes && accs[|frames|] == r.value.strikes
  {
    hide MapSum, Shifted, FrameInput.Computes, FrameInput.Valid, IsFrameResult, InBooks, ValueIn, Balanced, LastOf;
    var acc := DistributionResult(0, 0, map[], lastStrikes);
    books, accs := [], [lastStrikes];
    var distributedSoFar := 0;
    NothingYet(frames, acc, lastStrikes);
    for n := 0 to |frames|
      invariant FramesCompute(frames, n) && distributedSoFar == SharesBefore(frames, n)
      invariant Balanced(acc, distributedSoFar)
      invariant InBooks(frames, n, acc, lastStrikes, books, accs)
    {
      var frame := frames[n];
      var result, book := DistributeFrame(frame, acc, distributedSoFar);
      if result.Failure? {
        r := Failure(result.error);
        return;
      }
      FrameInBooks(frames, n, acc, lastStrikes, books, accs, result.value, book);
      books, accs := books + [book], accs + [result.value.strikes];
      acc := result.value;
      BalancedSum(acc, frame.sharesToDistribute);
      distributedSoFar := acc.totalRewards + acc.totalRebate;
    }
    BalancedSum(acc, distributedSoFar);
    var sum := SumValues(acc.totalRewardsMap);
    if acc.totalRewards != sum {
      assert false;
    }
    var totals := AddLastRewards(acc.totalRewardsMap, lastRewards);
    AllInBooks(frames, acc, lastStrikes, books, accs);
    r := Success(acc.(totalRewardsMap := totals));
  }

  /** The books hold the first `n` frames. */
  ghost predicate InBooks(
      frames: seq<FrameInput>, n: nat, acc: DistributionResult, lastStrikes: Stored,
      books: seq<FrameBooks>, accs: seq<Stored>)
    requires n <= |frames|
  {
    && BooksFollow(frames, n, books)
    && (forall op :: ValueIn(acc.totalRewardsMap)(op) == Earned(books, op))
    && |accs| == n + 1 && accs[0] == lastStrikes && accs[n] == acc.strikes
    && IsRun(StrikeFrames(frames, books), accs)
  }

  lemma {:induction false} BalancedSum(acc: DistributionResult, distributed: int)
    requires Balanced(acc, distributed)
    ensures acc.totalRewards + acc.totalRebate == distributed && acc.totalRewards >= 0 && acc.totalRebate >= 0
    ensures MapSum(acc.totalRewardsMap) == acc.totalRewards
  {
  }

  lemma {:induction false} FrameInBooks(
      frames: seq<FrameInput>, n: nat, acc: DistributionResult, lastStrikes: Stored,
      books: seq<FrameBooks>, accs: seq<Stored>, acc': DistributionResult, book: FrameBooks)
    requires n < |frames| && InBooks(frames, n, acc, lastStrikes, books, accs)
    requires IsFrameResult(frames[n], frames[n].sharesToDistribute - SharesBefore(frames, n),
      book.shares, book.rebateShare, book.result)
    requires forall op ::
      ValueIn(acc'.totalRewardsMap)(op) == ValueIn(acc.totalRewardsMap)(op) + ValueIn(book.result.rewards)(op)
    requires forall key: StrikesValidator ::
      Shifted(acc.strikes, book.result.strikes, frames[n].lifetime(key.noId), acc'.strikes, key)
    ensures InBooks(frames, n + 1, acc', lastStrikes, books + [book], accs + [acc'.strikes])
  {
    hide Shifted, IsFrameResult, IsRun, StrikeFrames, ValueIn;
    OneMoreStrikeFrame(frames, books, accs, book, acc'.strikes);
    assert (books + [book])[..n] == books;
  }

  lemma {:induction false} AllInBooks(
      frames: seq<FrameInput>, acc: DistributionResult, lastStrikes: Stored,
      books: seq<FrameBooks>, accs: seq<Stored>)
    requires InBooks(frames, |frames|, acc, lastStrikes, books, accs)
    ensures BooksFollow(frames, |frames|, books)
    ensures forall op :: ValueIn(acc.totalRewardsMap)(op) == Earned(books, op)
    ensures |accs| == |frames| + 1 && accs[0] == lastStrikes && accs[|frames|] == acc.strikes
    ensures IsRun(StrikeFrames(frames, books), accs)
  {
  }

  lemma {:induction false} NothingYet(frames: seq<FrameInput>, acc: DistributionResult, lastStrikes: Stored)
    requires acc == DistributionResult(0, 0, map[], lastStrikes)
    ensures Balanced(acc, 0) && InBooks(frames, 0, acc, lastStrikes, [], [lastStrikes])
  {
    MapSumEmpty<OperatorId>();
  }

  lemma {:induction false} TotalOneMore(rewards: seq<(OperatorId, nat)>, n: nat)
    requires n < |rewards|
    ensures Total(rewards[..n + 1]) == Total(rewards[..n]) + rewards[n].1
    decreases |rewards|
  {
    if n > 0 {
      TotalOneMore(rewards[1..], n - 1);
      assert rewards[..n + 1][1..] == rewards[1..][..n] && rewards[..n][1..] == rewards[1..][..n - 1];
    }
  }
}
