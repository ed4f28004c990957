/** Duty accounting of one frame, from the rows of its epochs to the counters of every validator. */
module FrameDuties {
  import opened Wrappers
  import opened ValidatorState
  import opened DutiesDb
  import opened DutyState
  import Collector
  import Sums

  type Validators = map<ValidatorIndex, ValidatorState>

  datatype DutiesError =
    | DuplicateMisses | CorruptedProposals | CorruptedSyncs | DuplicateEpoch
    | UnknownValidator | TooManySyncMisses | NotActive | WrongEpochCount | MissesAboveAssigned

  // ----- Checks on one row -----

  ghost predicate WellFormed(row: Duty) {
    && Sums.Distinct(row.missedAttestationVids)
    && |row.proposalsVids| == |row.proposalsFlags| && |row.syncsVids| == |row.syncsMisses|
  }

  function Elements<T>(xs: seq<T>): set<T> {
    set x | x in xs
  }

  lemma {:induction false} DistinctBySize<T(!new)>(xs: seq<T>)
    ensures |Elements(xs)| <= |xs|
    ensures Sums.Distinct(xs) <==> |Elements(xs)| == |xs|
  {
    if xs != [] {
      var front, last := xs[..|xs| - 1], xs[|xs| - 1];
      DistinctBySize(front);
      assert xs == front + [last];
      assert Elements(xs) == Elements(front) + {last};
    }
  }

  method ValidateEpochData(row: Duty) returns (error: Option<DutiesError>)
    ensures error.None? <==> WellFormed(row)
  {
    DistinctBySize(row.missedAttestationVids);
    if |row.missedAttestationVids| != |Elements(row.missedAttestationVids)| {
      return Some(DuplicateMisses);
    }
    if |row.proposalsVids| != |row.proposalsFlags| {
      return Some(CorruptedProposals);
    }
    if |row.syncsVids| != |row.syncsMisses| {
      return Some(CorruptedSyncs);
    }
    return None;
  }

  function Blocks(row: Duty): nat {
    Collector.CountTrue(row.proposalsFlags)
  }

  ghost predicate ProposersKnown(row: Duty, validators: Validators) {
    forall i :: 0 <= i < |row.proposalsVids| ==> row.proposalsVids[i] in validators
  }

  ghost predicate SyncsFit(row: Duty, validators: Validators)
    requires WellFormed(row)
  {
    Blocks(row) > 0 ==> forall i :: 0 <= i < |row.syncsVids| ==>
      row.syncsVids[i] in validators && row.syncsMisses[i] <= Blocks(row)
  }

  ghost predicate MissersActive(row: Duty, validators: Validators) {
    forall v :: v in row.missedAttestationVids ==> v in validators && IsActive(validators[v], row.epoch)
  }

  /** Nothing in the row makes the accounting stop. */
  ghost predicate RowFits(row: Duty, validators: Validators) {
    WellFormed(row) && ProposersKnown(row, validators) && SyncsFit(row, validators) && MissersActive(row, validators)
  }

  // ----- What a row counts for a validator -----

  function ProposalsIn(row: Duty, n: nat, v: ValidatorIndex): DutyAccumulator
    requires n <= |row.proposalsVids| == |row.proposalsFlags|
  {
    if n == 0 then ZERO
    else
      var before := ProposalsIn(row, n - 1, v);
      if row.proposalsVids[n - 1] != v then before
      else before.Plus(DutyAccumulator(1, if row.proposalsFlags[n - 1] then 1 else 0))
  }

  function SyncsIn(row: Duty, n: nat, v: ValidatorIndex): DutyAccumulator
    requires n <= |row.syncsVids| == |row.syncsMisses|
  {
    if n == 0 || Blocks(row) == 0 then ZERO
    else
      var before := SyncsIn(row, n - 1, v);
      if row.syncsVids[n - 1] != v then before
      else before.Plus(DutyAccumulator(Blocks(row), Blocks(row) - row.syncsMisses[n - 1]))
  }

  function ProposalsUpTo(row: Duty, n: nat): ValidatorIndex -> DutyAccumulator
    requires n <= |row.proposalsVids| == |row.proposalsFlags|
  {
    (v: ValidatorIndex) => ProposalsIn(row, n, v)
  }

  function SyncsUpTo(row: Duty, n: nat): ValidatorIndex -> DutyAccumulator
    requires n <= |row.syncsVids| == |row.syncsMisses|
  {
    (v: ValidatorIndex) => SyncsIn(row, n, v)
  }

  /** Every key has at least one duty. */
  ghost predicate Tight(m: Accumulators) {
    forall v :: v in m ==> m[v].assignedCount > 0
  }

  lemma {:induction false} StaysTight(m: Accumulators, v: ValidatorIndex, d: DutyAccumulator)
    requires Tight(m) && d.assignedCount > 0
    ensures Tight(Added(m, v, d))
  {
  }

  lemma {:induction false} CountOneMore(flags: seq<bool>, n: nat)
    requires n < |flags|
    ensures Collector.CountTrue(flags[..n + 1]) == Collector.CountTrue(flags[..n]) + (if flags[n] then 1 else 0)
  {
    assert flags[..n + 1][..n] == flags[..n];
  }

  /** `a` is `b` with what `counted` says added for every validator. */
  ghost predicate IsSum(a: Accumulators, b: Accumulators, counted: ValidatorIndex -> DutyAccumulator) {
    forall v :: Get(a, v) == Get(b, v).Plus(counted(v))
  }

  lemma {:induction false} IsSumZero(a: Accumulators, counted: ValidatorIndex -> DutyAccumulator)
    requires forall v :: counted(v) == ZERO
    ensures IsSum(a, a, counted)
  {
    hide Get, DutyAccumulator.Plus;
    forall v ensures Get(a, v) == Get(a, v).Plus(counted(v)) { PlusZero(Get(a, v)); }
  }

  lemma {:induction false} PlusAssociates(a: DutyAccumulator, b: DutyAccumulator, c: DutyAccumulator)
    ensures a.Plus(b).Plus(c) == a.Plus(b.Plus(c))
  {
  }

  lemma {:induction false} IsSumOneMore(
      a: Accumulators, b: Accumulators, counted: ValidatorIndex -> DutyAccumulator,
      v: ValidatorIndex, d: DutyAccumulator, more: ValidatorIndex -> DutyAccumulator)
    requires IsSum(a, b, counted)
    requires forall u :: more(u) == if u == v then counted(u).Plus(d) else counted(u)
    ensures IsSum(Added(a, v, d), b, more)
  {
    hide DutyAccumulator.Plus, Get, Added;
    GetAdded(a, v, d);
    forall u ensures Get(Added(a, v, d), u) == Get(b, u).Plus(more(u)) {
      if u == v { PlusAssociates(Get(b, u), counted(u), d); }
    }
  }

  lemma {:induction false} IsSumChains(
      a: Accumulators, b: Accumulators, c: Accumulators,
      first: ValidatorIndex -> DutyAccumulator, second: ValidatorIndex -> DutyAccumulator,
      both: ValidatorIndex -> DutyAccumulator)
    requires IsSum(b, a, first) && IsSum(c, b, second)
    requires forall u :: both(u) == first(u).Plus(second(u))
    ensures IsSum(c, a, both)
  {
    hide DutyAccumulator.Plus, Get;
    forall u ensures Get(c, u) == Get(a, u).Plus(both(u)) {
      PlusAssociates(Get(a, u), first(u), second(u));
    }
  }

  // ----- The loops over one row -----

  method AddProposals(row: Duty, validators: Validators, proposals: Accumulators)
    returns (r: Option<(Accumulators, nat)>)
    requires WellFormed(row) && Tight(proposals)
    ensures r.Some? <==> ProposersKnown(row, validators)
    ensures r.Some? ==>
      && Tight(r.value.0) && r.value.1 == Blocks(row)
      && IsSum(r.value.0, proposals, ProposalsUpTo(row, |row.proposalsVids|))
  {
    hide IsSum, Tight, Get, Added, DutyAccumulator.Plus, Sums.Distinct, Collector.CountTrue;
    var acc, blocksInEpoch := proposals, 0;
    var flags := row.proposalsFlags;
    assert Collector.CountTrue(flags[..0]) == 0 by { CountNone(flags); }
    IsSumZero(acc, ProposalsUpTo(row, 0));
    for i := 0 to |row.proposalsVids|
      invariant forall k :: 0 <= k < i ==> row.proposalsVids[k] in validators
      invariant blocksInEpoch == Collector.CountTrue(flags[..i])
      invariant Tight(acc) && IsSum(acc, proposals, ProposalsUpTo(row, i))
    {
      var vid := row.proposalsVids[i];
      if vid !in validators {
        return None;
      }
      var proposed := if flags[i] then 1 else 0;
      CountOneMore(flags, i);
      StaysTight(acc, vid, DutyAccumulator(1, proposed));
      IsSumOneMore(acc, proposals, ProposalsUpTo(row, i), vid, DutyAccumulator(1, proposed),
        ProposalsUpTo(row, i + 1));
      acc := Added(acc, vid, DutyAccumulator(1, proposed));
      blocksInEpoch := blocksInEpoch + proposed;
    }
    assert flags[..|flags|] == flags;
    return Some((acc, blocksInEpoch));
  }

  lemma {:induction false} CountNone(flags: seq<bool>)
    ensures Collector.CountTrue(flags[..0]) == 0
  {
  }

  method AddSyncs(row: Duty, validators: Validators, blocksInEpoch: nat, syncs: Accumulators)
    returns (r: Result<Accumulators, DutiesError>)
    requires WellFormed(row) && Tight(syncs) && blocksInEpoch == Blocks(row)
    ensures r.Success? <==> SyncsFit(row, validators)
    ensures r.Success? ==> Tight(r.value) && IsSum(r.value, syncs, SyncsUpTo(row, |row.syncsVids|))
  {
    hide IsSum, Tight, Get, Added, DutyAccumulator.Plus, Sums.Distinct, Collector.CountTrue;
    var acc := syncs;
    IsSumZero(acc, SyncsUpTo(row, 0));
    if blocksInEpoch == 0 {
      IsSumZero(acc, SyncsUpTo(row, |row.syncsVids|));
      return Success(acc);
    }
    for i := 0 to |row.syncsVids|
      invariant forall k :: 0 <= k < i ==> row.syncsVids[k] in validators && row.syncsMisses[k] <= Blocks(row)
      invariant Tight(acc) && IsSum(acc, syncs, SyncsUpTo(row, i))
    {
      var vid, misses := row.syncsVids[i], row.syncsMisses[i];
      if vid !in validators {
        return Failure(UnknownValidator);
      }
      if misses > blocksInEpoch {
        return Failure(TooManySyncMisses);
      }
      var duty := DutyAccumulator(blocksInEpoch, blocksInEpoch - misses);
      StaysTight(acc, vid, duty);
      IsSumOneMore(acc, syncs, SyncsUpTo(row, i), vid, duty, SyncsUpTo(row, i + 1));
      acc := Added(acc, vid, duty);
    }
    return Success(acc);
  }

  type Misses = map<ValidatorIndex, nat>

  function MissesOf(m: Misses, v: ValidatorIndex): nat {
    if v in m then m[v] else 0
  }

  function MissIn(row: Duty, v: ValidatorIndex): nat {
    if v in row.missedAttestationVids then 1 else 0
  }

  method AddMisses(row: Duty, validators: Validators, missed: Misses) returns (r: Result<Misses, DutiesError>)
    requires WellFormed(row)
    ensures r.Success? <==> MissersActive(row, validators)
    ensures r.Success? ==> forall v :: MissesOf(r.value, v) == MissesOf(missed, v) + MissIn(row, v)
  {
    var counted: Misses := missed;
    var vids := row.missedAttestationVids;
    for i := 0 to |vids|
      invariant forall k :: 0 <= k < i ==> vids[k] in validators && IsActive(validators[vids[k]], row.epoch)
      invariant forall v :: MissesOf(counted, v) == MissesOf(missed, v) + if v in vids[..i] then 1 else 0
    {
      var vid := vids[i];
      if vid !in validators {
        return Failure(UnknownValidator);
      }
      if !IsActive(validators[vid], row.epoch) {
        return Failure(NotActive);
      }
      Sums.DistinctPrefix(vids, i);
      assert vids[..i + 1] == vids[..i] + [vid];
      counted := counted[vid := MissesOf(counted, vid) + 1];
    }
    assert vids[..|vids|] == vids;
    return Success(counted);
  }

  // ----- Active epochs -----

  function CountActiveEpochs(v: ValidatorState, lEpoch: nat, rEpoch: nat): nat {
    var first, last := Max(lEpoch, v.activationEpoch), Min(rEpoch, v.exitEpoch - 1);
    if first > last then 0 else last - first + 1
  }

  ghost function ActiveEpochs(v: ValidatorState, lEpoch: nat, rEpoch: nat): set<nat> {
    set e | lEpoch <= e <= rEpoch && IsActive(v, e)
  }

  lemma {:induction false} RangeSize(s: set<nat>, first: nat, count: nat)
    requires forall e :: e in s <==> first <= e < first + count
    ensures |s| == count
    decreases count
  {
    if count == 0 {
      assert s == {};
    } else {
      RangeSize(s - {first + count - 1}, first, count - 1);
    }
  }

  /** The closed form counts exactly the epochs of the range in which the validator is active. */
  lemma {:induction false} CountActiveIsExact(v: ValidatorState, lEpoch: nat, rEpoch: nat)
    ensures CountActiveEpochs(v, lEpoch, rEpoch) == |ActiveEpochs(v, lEpoch, rEpoch)|
  {
    var first, last := Max(lEpoch, v.activationEpoch), Min(rEpoch, v.exitEpoch - 1);
    if first > last {
      RangeSize(ActiveEpochs(v, lEpoch, rEpoch), first, 0);
    } else {
      RangeSize(ActiveEpochs(v, lEpoch, rEpoch), first, last - first + 1);
    }
  }

  function MissCounts(missed: Misses): ValidatorIndex -> nat {
    (v: ValidatorIndex) => MissesOf(missed, v)
  }

  /** No validator missed more epochs than it was assigned. */
  ghost predicate NoneExceeds(
      validators: Validators, misses: ValidatorIndex -> nat, lEpoch: nat, rEpoch: nat)
  {
    forall v :: v in validators && CountActiveEpochs(validators[v], lEpoch, rEpoch) > 0 ==>
      misses(v) <= CountActiveEpochs(validators[v], lEpoch, rEpoch)
  }

  method AssignAttestations(validators: Validators, missed: Misses, lEpoch: nat, rEpoch: nat)
    returns (r: Result<Accumulators, DutiesError>)
    ensures r.Success? <==> NoneExceeds(validators, MissCounts(missed), lEpoch, rEpoch)
    ensures r.Success? ==> AreAttestations(r.value, validators, MissCounts(missed), lEpoch, rEpoch)
  {
    hide CountActiveEpochs;
    var acc: Accumulators := map[];
    var keys := validators.Keys;
    while keys != {}
      invariant keys <= validators.Keys
      invariant forall v :: v in validators && v !in keys && CountActiveEpochs(validators[v], lEpoch, rEpoch) > 0 ==>
        MissesOf(missed, v) <= CountActiveEpochs(validators[v], lEpoch, rEpoch)
      invariant forall v :: v in acc <==>
        (v in validators && v !in keys && CountActiveEpochs(validators[v], lEpoch, rEpoch) > 0)
      invariant forall v :: v in acc ==> acc[v] == AttestationsOf(validators[v], MissesOf(missed, v), lEpoch, rEpoch)
      decreases |keys|
    {
      var v :| v in keys;
      keys := keys - {v};
      var assignedCount := CountActiveEpochs(validators[v], lEpoch, rEpoch);
      if assignedCount == 0 {
        continue;
      }
      var misses := MissesOf(missed, v);
      if misses > assignedCount {
        return Failure(MissesAboveAssigned);
      }
      acc := acc[v := DutyAccumulator(assignedCount, assignedCount - misses)];
    }
    return Success(acc);
  }

  function AttestationsOf(v: ValidatorState, misses: nat, lEpoch: nat, rEpoch: nat): DutyAccumulator {
    var assignedCount := CountActiveEpochs(v, lEpoch, rEpoch);
    DutyAccumulator(assignedCount, assignedCount - misses)
  }

  ghost predicate AreAttestations(
      acc: Accumulators, validators: Validators, misses: ValidatorIndex -> nat, lEpoch: nat, rEpoch: nat)
  {
    && (forall v :: v in acc <==> (v in validators && CountActiveEpochs(validators[v], lEpoch, rEpoch) > 0))
    && forall v :: v in acc ==> acc[v] == AttestationsOf(validators[v], misses(v), lEpoch, rEpoch)
  }

  // ----- The frame -----

  ghost predicate RowsFit(rows: seq<Duty>, n: nat, validators: Validators)
    requires n <= |rows|
  {
    forall k :: 0 <= k < n ==> RowFits(rows[k], validators)
  }

  ghost predicate RowsWellFormed(rows: seq<Duty>, n: nat)
    requires n <= |rows|
  {
    forall k :: 0 <= k < n ==> WellFormed(rows[k])
  }

  ghost predicate EpochsDistinct(rows: seq<Duty>, n: nat)
    requires n <= |rows|
  {
    forall i, j :: 0 <= i < j < n ==> rows[i].epoch != rows[j].epoch
  }

  function MissesBelow(rows: seq<Duty>, n: nat, v: ValidatorIndex): nat
    requires n <= |rows|
  {
    if n == 0 then 0 else MissesBelow(rows, n - 1, v) + MissIn(rows[n - 1], v)
  }

  /** The counters of `n` rows, one row after the other. */
  ghost function ProposalsBelow(rows: seq<Duty>, n: nat, v: ValidatorIndex): DutyAccumulator
    requires n <= |rows| && RowsWellFormed(rows, n)
  {
    if n == 0 then ZERO
    else
      assert WellFormed(rows[n - 1]);
      ProposalsBelow(rows, n - 1, v).Plus(ProposalsIn(rows[n - 1], |rows[n - 1].proposalsVids|, v))
  }

  ghost function SyncsBelow(rows: seq<Duty>, n: nat, v: ValidatorIndex): DutyAccumulator
    requires n <= |rows| && RowsWellFormed(rows, n)
  {
    if n == 0 then ZERO
    else
      assert WellFormed(rows[n - 1]);
      SyncsBelow(rows, n - 1, v).Plus(SyncsIn(rows[n - 1], |rows[n - 1].syncsVids|, v))
  }

  ghost function ProposalCounts(rows: seq<Duty>, n: nat): ValidatorIndex -> DutyAccumulator
    requires n <= |rows| && RowsWellFormed(rows, n)
  {
    (v: ValidatorIndex) => ProposalsBelow(rows, n, v)
  }

  ghost function SyncCounts(rows: seq<Duty>, n: nat): ValidatorIndex -> DutyAccumulator
    requires n <= |rows| && RowsWellFormed(rows, n)
  {
    (v: ValidatorIndex) => SyncsBelow(rows, n, v)
  }

  ghost function MissesOver(rows: seq<Duty>): ValidatorIndex -> nat {
    (v: ValidatorIndex) => MissesBelow(rows, |rows|, v)
  }

  /** The duties of a frame, validator by validator. */
  ghost predicate IsAccounting(
      d: NetworkDuties, rows: seq<Duty>, validators: Validators, lEpoch: nat, rEpoch: nat)
    requires RowsWellFormed(rows, |rows|)
  {
    && AreAttestations(d.attestations, validators, MissesOver(rows), lEpoch, rEpoch)
    && Tight(d.proposals) && IsSum(d.proposals, map[], ProposalCounts(rows, |rows|))
    && Tight(d.syncs) && IsSum(d.syncs, map[], SyncCounts(rows, |rows|))
  }

  /** What the loop over the rows keeps. */
  ghost predicate Counted(
      rows: seq<Duty>, n: nat, proposals: Accumulators, syncs: Accumulators, missed: Misses)
    requires n <= |rows| && RowsWellFormed(rows, n)
  {
    && Tight(proposals) && IsSum(proposals, map[], ProposalCounts(rows, n))
    && Tight(syncs) && IsSum(syncs, map[], SyncCounts(rows, n))
    && forall v :: MissesOf(missed, v) == MissesBelow(rows, n, v)
  }

  lemma {:induction false} NothingCounted(rows: seq<Duty>)
    ensures Counted(rows, 0, map[], map[], map[])
  {
    IsSumZero(map[], ProposalCounts(rows, 0));
    IsSumZero(map[], SyncCounts(rows, 0));
  }

  lemma {:induction false} RowCounted(
      rows: seq<Duty>, n: nat, proposals: Accumulators, syncs: Accumulators, missed: Misses,
      proposals': Accumulators, syncs': Accumulators, missed': Misses)
    requires n < |rows| && RowsWellFormed(rows, n) && WellFormed(rows[n])
    requires Counted(rows, n, proposals, syncs, missed)
    requires Tight(proposals') && IsSum(proposals', proposals, ProposalsUpTo(rows[n], |rows[n].proposalsVids|))
    requires Tight(syncs') && IsSum(syncs', syncs, SyncsUpTo(rows[n], |rows[n].syncsVids|))
    requires forall v :: MissesOf(missed', v) == MissesOf(missed, v) + MissIn(rows[n], v)
    ensures RowsWellFormed(rows, n + 1) && Counted(rows, n + 1, proposals', syncs', missed')
  {
    hide IsSum, Tight, Sums.Distinct, Get, DutyAccumulator.Plus, ProposalsIn, SyncsIn, MissesOf, MissIn;
    IsSumChains(map[], proposals, proposals', ProposalCounts(rows, n),
      ProposalsUpTo(rows[n], |rows[n].proposalsVids|), ProposalCounts(rows, n + 1));
    IsSumChains(map[], syncs, syncs', SyncCounts(rows, n),
      SyncsUpTo(rows[n], |rows[n].syncsVids|), SyncCounts(rows, n + 1));
  }

  /** The part of a row's processing that comes after the check for duplicates. */
  method ProcessRow(
      ghost rows: seq<Duty>, ghost n: nat, row: Duty, validators: Validators,
      proposals: Accumulators, syncs: Accumulators, missed: Misses)
    returns (r: Result<(Accumulators, Accumulators, Misses), DutiesError>)
    requires n < |rows| && rows[n] == row && WellFormed(row)
    requires RowsWellFormed(rows, n) && Counted(rows, n, proposals, syncs, missed)
    ensures r.Success? <==> RowFits(row, validators)
    ensures r.Success? ==>
      RowsWellFormed(rows, n + 1) && Counted(rows, n + 1, r.value.0, r.value.1, r.value.2)
  {
    hide IsSum, Tight, Sums.Distinct, ProposersKnown, SyncsFit, MissersActive, MissesOf, MissIn;
    var proposed := AddProposals(row, validators, proposals);
    if proposed.None? {
      return Failure(UnknownValidator);
    }
    var synced := AddSyncs(row, validators, proposed.value.1, syncs);
    if synced.Failure? {
      return Failure(synced.error);
    }
    var attested := AddMisses(row, validators, missed);
    if attested.Failure? {
      return Failure(attested.error);
    }
    RowCounted(rows, n, proposals, syncs, missed, proposed.value.0, synced.value, attested.value);
    return Success((proposed.value.0, synced.value, attested.value));
  }

  ghost predicate EpochsSeen(rows: seq<Duty>, n: nat, processed: set<nat>)
    requires n <= |rows|
  {
    |processed| == n && forall e :: e in processed <==> exists k :: 0 <= k < n && rows[k].epoch == e
  }

  lemma {:induction false} OneMoreEpoch(rows: seq<Duty>, n: nat, processed: set<nat>)
    requires n < |rows| && EpochsSeen(rows, n, processed) && EpochsDistinct(rows, n)
    ensures EpochsDistinct(rows, n + 1) <==> rows[n].epoch !in processed
    ensures EpochsDistinct(rows, n + 1) ==> EpochsSeen(rows, n + 1, processed + {rows[n].epoch})
  {
    if rows[n].epoch in processed {
      var k :| 0 <= k < n && rows[k].epoch == rows[n].epoch;
    }
  }

  lemma {:induction false} DistinctEpochsShorter(rows: seq<Duty>, m: nat, n: nat)
    requires n <= m <= |rows| && EpochsDistinct(rows, m)
    ensures EpochsDistinct(rows, n)
  {
  }

  method GetFrameDuties(lEpoch: nat, rEpoch: nat, rows: seq<Duty>, validators: Validators)
    returns (r: Result<NetworkDuties, DutiesError>)
    ensures r.Success? <==>
      && RowsFit(rows, |rows|, validators) && EpochsDistinct(rows, |rows|)
      && |rows| == rEpoch - lEpoch + 1 && NoneExceeds(validators, MissesOver(rows), lEpoch, rEpoch)
    ensures r.Success? ==>
      RowsWellFormed(rows, |rows|) && IsAccounting(r.value, rows, validators, lEpoch, rEpoch)
  {
    hide IsSum, Tight, RowFits, WellFormed, MissesOf, MissIn, CountActiveEpochs, EpochsDistinct, EpochsSeen;
    hide NoneExceeds, AreAttestations, IsAccounting, Counted;
    var proposals: Accumulators, syncs: Accumulators, missed: Misses := map[], map[], map[];
    var processed: set<nat> := {};
    assert RowsWellFormed(rows, 0) && Counted(rows, 0, proposals, syncs, missed) by { NothingCounted(rows); }
    assert EpochsSeen(rows, 0, processed) && EpochsDistinct(rows, 0) by { NothingSeen(rows); }
    for n := 0 to |rows|
      invariant RowsFit(rows, n, validators) && EpochsDistinct(rows, n) && RowsWellFormed(rows, n)
      invariant EpochsSeen(rows, n, processed)
      invariant Counted(rows, n, proposals, syncs, missed)
    {
      OneMoreEpoch(rows, n, processed);
      var row := rows[n];
      var invalid := ValidateEpochData(row);
      if invalid.Some? {
        assert !RowFits(row, validators) by { MalformedRow(row, validators); }
        return Failure(invalid.value);
      }
      if row.epoch in processed {
        assert !EpochsDistinct(rows, |rows|) by {
          if EpochsDistinct(rows, |rows|) { DistinctEpochsShorter(rows, |rows|, n + 1); }
        }
        return Failure(DuplicateEpoch);
      }
      var step := ProcessRow(rows, n, row, validators, proposals, syncs, missed);
      if step.Failure? {
        return Failure(step.error);
      }
      proposals, syncs, missed := step.value.0, step.value.1, step.value.2;
      processed := processed + {row.epoch};
    }
    assert |processed| == |rows| by { SeenCount(rows, |rows|, processed); }
    if |processed| != rEpoch - lEpoch + 1 {
      return Failure(WrongEpochCount);
    }
    var attestations := AssignAttestations(validators, missed, lEpoch, rEpoch);
    MissesAreCounted(rows, proposals, syncs, missed, validators, lEpoch, rEpoch);
    if attestations.Failure? {
      return Failure(attestations.error);
    }
    AllAccounted(rows, proposals, syncs, missed, attestations.value, validators, lEpoch, rEpoch);
    return Success(NetworkDuties(attestations.value, proposals, syncs));
  }

  lemma {:induction false} MissesAreCounted(
      rows: seq<Duty>, proposals: Accumulators, syncs: Accumulators, missed: Misses,
      validators: Validators, lEpoch: nat, rEpoch: nat)
    requires RowsWellFormed(rows, |rows|) && Counted(rows, |rows|, proposals, syncs, missed)
    ensures NoneExceeds(validators, MissCounts(missed), lEpoch, rEpoch)
      <==> NoneExceeds(validators, MissesOver(rows), lEpoch, rEpoch)
  {
    hide IsSum, Tight, MissesOf, CountActiveEpochs;
    forall v ensures MissCounts(missed)(v) == MissesOver(rows)(v) {
      assert MissesOf(missed, v) == MissesBelow(rows, |rows|, v);
    }
  }

  lemma {:induction false} AllAccounted(
      rows: seq<Duty>, proposals: Accumulators, syncs: Accumulators, missed: Misses, attestations: Accumulators,
      validators: Validators, lEpoch: nat, rEpoch: nat)
    requires RowsWellFormed(rows, |rows|) && Counted(rows, |rows|, proposals, syncs, missed)
    requires AreAttestations(attestations, validators, MissCounts(missed), lEpoch, rEpoch)
    ensures IsAccounting(NetworkDuties(attestations, proposals, syncs), rows, validators, lEpoch, rEpoch)
  {
    hide IsSum, Tight, MissesOf, CountActiveEpochs, AttestationsOf;
    forall v ensures MissCounts(missed)(v) == MissesOver(rows)(v) {
      assert MissesOf(missed, v) == MissesBelow(rows, |rows|, v);
    }
  }

  lemma {:induction false} NothingSeen(rows: seq<Duty>)
    ensures EpochsSeen(rows, 0, {}) && EpochsDistinct(rows, 0)
  {
  }

  lemma {:induction false} SeenCount(rows: seq<Duty>, n: nat, processed: set<nat>)
    requires n <= |rows| && EpochsSeen(rows, n, processed)
    ensures |processed| == n
  {
  }

  lemma {:induction false} MalformedRow(row: Duty, validators: Validators)
    requires !WellFormed(row)
    ensures !RowFits(row, validators)
  {
  }
}
