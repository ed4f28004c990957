/** What the accounting of a frame promises: no false alarm, and counters that mean what they say. */
module FrameDutiesLemmas {
  import opened Wrappers
  import opened ValidatorState
  import opened DutiesDb
  import opened DutyState
  import opened FrameDuties
  import opened SetSums
  import Collector
  import Sums

  // ----- Rows written by the collector -----

  /** A stored row is accepted as soon as its validators are known and its missers were active. */
  lemma {:induction false} StoredRowsFit(row: Duty, validators: Validators)
    requires Collector.RowConsistent(row)
    requires ProposersKnown(row, validators) && MissersActive(row, validators)
    requires forall i :: 0 <= i < |row.syncsVids| ==> row.syncsVids[i] in validators
    ensures RowFits(row, validators)
  {
    Sums.DistinctByIndex(row.missedAttestationVids);
  }

  // ----- Misses never exceed assignments -----

  /** The epochs of the first `n` rows in which `v` missed. */
  ghost function MissedEpochs(rows: seq<Duty>, n: nat, v: ValidatorIndex): set<nat>
    requires n <= |rows|
  {
    set k | 0 <= k < n && v in rows[k].missedAttestationVids :: rows[k].epoch
  }

  lemma {:induction false} OneMoreMissed(rows: seq<Duty>, n: nat, v: ValidatorIndex)
    requires n < |rows| && EpochsDistinct(rows, n + 1)
    ensures rows[n].epoch !in MissedEpochs(rows, n, v)
    ensures MissedEpochs(rows, n + 1, v) == MissedEpochs(rows, n, v)
      + (if v in rows[n].missedAttestationVids then {rows[n].epoch} else {})
  {
    var before, after := MissedEpochs(rows, n, v), MissedEpochs(rows, n + 1, v);
    forall e ensures e in after <==> e in before || (v in rows[n].missedAttestationVids && e == rows[n].epoch) {
      if e in after {
        var k :| 0 <= k < n + 1 && v in rows[k].missedAttestationVids && rows[k].epoch == e;
        if k < n { assert e in before; }
      }
    }
  }

  /** Each epoch adds at most one miss. */
  lemma {:induction false} MissesCountEpochs(rows: seq<Duty>, n: nat, v: ValidatorIndex)
    requires n <= |rows| && EpochsDistinct(rows, n)
    ensures MissesBelow(rows, n, v) == |MissedEpochs(rows, n, v)|
    decreases n
  {
    if n > 0 {
      DistinctEpochsShorter(rows, n, n - 1);
      MissesCountEpochs(rows, n - 1, v);
      OneMoreMissed(rows, n - 1, v);
    }
  }

  ghost predicate EpochsInside(rows: seq<Duty>, lEpoch: nat, rEpoch: nat) {
    forall k :: 0 <= k < |rows| ==> lEpoch <= rows[k].epoch <= rEpoch
  }

  lemma {:induction false} MissedWhileActive(
      rows: seq<Duty>, validators: Validators, v: ValidatorIndex, lEpoch: nat, rEpoch: nat)
    requires RowsFit(rows, |rows|, validators) && EpochsInside(rows, lEpoch, rEpoch) && v in validators
    ensures MissedEpochs(rows, |rows|, v) <= ActiveEpochs(validators[v], lEpoch, rEpoch)
  {
    forall e | e in MissedEpochs(rows, |rows|, v) ensures e in ActiveEpochs(validators[v], lEpoch, rEpoch) {
      var k :| 0 <= k < |rows| && v in rows[k].missedAttestationVids && rows[k].epoch == e;
      assert RowFits(rows[k], validators);
    }
  }

  lemma {:induction false} SubsetSize<T>(a: set<T>, b: set<T>)
    requires a <= b
    ensures |b - a| == |b| - |a|
  {
    assert b == a + (b - a);
  }

  /** The check "misses above assigned" cannot fire on the epochs of the frame. */
  lemma {:induction false} NoFalseAlarm(rows: seq<Duty>, validators: Validators, lEpoch: nat, rEpoch: nat)
    requires RowsFit(rows, |rows|, validators) && EpochsDistinct(rows, |rows|) && EpochsInside(rows, lEpoch, rEpoch)
    ensures NoneExceeds(validators, MissesOver(rows), lEpoch, rEpoch)
  {
    hide CountActiveEpochs, ActiveEpochs, MissedEpochs, RowFits;
    forall v | v in validators
      ensures MissesBelow(rows, |rows|, v) <= CountActiveEpochs(validators[v], lEpoch, rEpoch)
    {
      MissesCountEpochs(rows, |rows|, v);
      MissedWhileActive(rows, validators, v, lEpoch, rEpoch);
      SubsetSize(MissedEpochs(rows, |rows|, v), ActiveEpochs(validators[v], lEpoch, rEpoch));
      CountActiveIsExact(validators[v], lEpoch, rEpoch);
    }
  }

  /** Outside the frame it can: two rows before it, and a validator with one epoch left in it. */
  lemma {:induction false} AlarmOutsideFrame()
    ensures var rows := [Duty(5, [7], [], [], [], []), Duty(6, [7], [], [], [], [])];
      var validators := map[7 := ValidatorState(Eth1, 32_000_000_000, false, 0, 11, 20)];
      && RowsFit(rows, 2, validators) && EpochsDistinct(rows, 2) && |rows| == 11 - 10 + 1
      && !NoneExceeds(validators, MissesOver(rows), 10, 11)
  {
    var rows := [Duty(5, [7], [], [], [], []), Duty(6, [7], [], [], [], [])];
    var validators := map[7 := ValidatorState(Eth1, 32_000_000_000, false, 0, 11, 20)];
    Sums.DistinctByIndex([7]);
    assert MissesBelow(rows, 2, 7) == MissesBelow(rows, 1, 7) + MissIn(rows[1], 7);
    assert MissesBelow(rows, 1, 7) == MissesBelow(rows, 0, 7) + MissIn(rows[0], 7);
    assert CountActiveEpochs(validators[7], 10, 11) == 1;
    assert MissesOver(rows)(7) == 2;
  }

  // ----- What the counters mean -----

  /** Included attestations are the active epochs of the frame without a miss. */
  lemma {:induction false} AttestationsMeaning(
      d: NetworkDuties, rows: seq<Duty>, validators: Validators, lEpoch: nat, rEpoch: nat, v: ValidatorIndex)
    requires RowsFit(rows, |rows|, validators) && EpochsDistinct(rows, |rows|) && EpochsInside(rows, lEpoch, rEpoch)
    requires RowsWellFormed(rows, |rows|) && IsAccounting(d, rows, validators, lEpoch, rEpoch)
    requires v in d.attestations
    ensures v in validators
    ensures d.attestations[v].assignedCount == |ActiveEpochs(validators[v], lEpoch, rEpoch)| > 0
    ensures d.attestations[v].includedCount
      == |ActiveEpochs(validators[v], lEpoch, rEpoch) - MissedEpochs(rows, |rows|, v)|
  {
    hide CountActiveEpochs, ActiveEpochs, MissedEpochs, RowFits, Tight, IsSum;
    MissesCountEpochs(rows, |rows|, v);
    MissedWhileActive(rows, validators, v, lEpoch, rEpoch);
    SubsetSize(MissedEpochs(rows, |rows|, v), ActiveEpochs(validators[v], lEpoch, rEpoch));
    CountActiveIsExact(validators[v], lEpoch, rEpoch);
    assert MissesOver(rows)(v) == MissesBelow(rows, |rows|, v);
  }

  lemma {:induction false} ProposalsInSound(row: Duty, n: nat, v: ValidatorIndex)
    requires n <= |row.proposalsVids| == |row.proposalsFlags|
    ensures ProposalsIn(row, n, v).Sound()
    decreases n
  {
    if n > 0 { ProposalsInSound(row, n - 1, v); }
  }

  lemma {:induction false} SyncsInSound(row: Duty, validators: Validators, n: nat, v: ValidatorIndex)
    requires WellFormed(row) && SyncsFit(row, validators) && n <= |row.syncsVids|
    ensures SyncsIn(row, n, v).Sound()
    decreases n
  {
    if n > 0 && Blocks(row) > 0 { SyncsInSound(row, validators, n - 1, v); }
  }

  lemma {:induction false} CountersSound(rows: seq<Duty>, validators: Validators, n: nat, v: ValidatorIndex)
    requires n <= |rows| && RowsWellFormed(rows, n) && RowsFit(rows, |rows|, validators)
    ensures ProposalsBelow(rows, n, v).Sound() && SyncsBelow(rows, n, v).Sound()
    decreases n
  {
    hide Sums.Distinct, ProposalsIn, SyncsIn;
    if n > 0 {
      assert WellFormed(rows[n - 1]) && RowFits(rows[n - 1], validators);
      CountersSound(rows, validators, n - 1, v);
      ProposalsInSound(rows[n - 1], |rows[n - 1].proposalsVids|, v);
      SyncsInSound(rows[n - 1], validators, |rows[n - 1].syncsVids|, v);
    }
  }

  /** Every counter has included at most assigned, so none of the three network aggregates raises. */
  lemma {:induction false} CountersAreSound(
      d: NetworkDuties, rows: seq<Duty>, validators: Validators, lEpoch: nat, rEpoch: nat)
    requires RowsFit(rows, |rows|, validators) && NoneExceeds(validators, MissesOver(rows), lEpoch, rEpoch)
    requires RowsWellFormed(rows, |rows|) && IsAccounting(d, rows, validators, lEpoch, rEpoch)
    ensures AllSound(d.attestations) && AllSound(d.proposals) && AllSound(d.syncs)
  {
    hide CountActiveEpochs, RowFits, Tight, WellFormed, ProposalsBelow, SyncsBelow, MissesBelow;
    forall v | v in d.proposals ensures d.proposals[v].Sound() {
      CountersSound(rows, validators, |rows|, v);
      assert Get(d.proposals, v) == Get(map[], v).Plus(ProposalCounts(rows, |rows|)(v));
    }
    forall v | v in d.syncs ensures d.syncs[v].Sound() {
      CountersSound(rows, validators, |rows|, v);
      assert Get(d.syncs, v) == Get(map[], v).Plus(SyncCounts(rows, |rows|)(v));
    }
    forall v | v in d.attestations ensures d.attestations[v].Sound() {
      assert MissesOver(rows)(v) <= CountActiveEpochs(validators[v], lEpoch, rEpoch);
    }
  }

  // ----- Conservation of proposals -----

  function Proposed(rows: seq<Duty>, n: nat): nat
    requires n <= |rows|
  {
    if n == 0 then 0 else Proposed(rows, n - 1) + |rows[n - 1].proposalsVids|
  }

  function BlocksBelow(rows: seq<Duty>, n: nat): nat
    requires n <= |rows|
  {
    if n == 0 then 0 else BlocksBelow(rows, n - 1) + Blocks(rows[n - 1])
  }

  function AssignedIn(row: Duty, n: nat): ValidatorIndex -> int
    requires n <= |row.proposalsVids| == |row.proposalsFlags|
  {
    (v: ValidatorIndex) => ProposalsIn(row, n, v).assignedCount
  }

  function IncludedIn(row: Duty, n: nat): ValidatorIndex -> int
    requires n <= |row.proposalsVids| == |row.proposalsFlags|
  {
    (v: ValidatorIndex) => ProposalsIn(row, n, v).includedCount
  }

  /** A value at one validator, and nothing elsewhere. */
  function OnlyAt(at: ValidatorIndex, x: int): ValidatorIndex -> int {
    (v: ValidatorIndex) => if v == at then x else 0
  }

  lemma {:induction false} OneMoreProposal(row: Duty, n: nat)
    requires n < |row.proposalsVids| == |row.proposalsFlags|
    ensures forall v :: AssignedIn(row, n + 1)(v) == AssignedIn(row, n)(v) + OnlyAt(row.proposalsVids[n], 1)(v)
    ensures forall v :: (IncludedIn(row, n + 1)(v)
      == IncludedIn(row, n)(v) + OnlyAt(row.proposalsVids[n], if row.proposalsFlags[n] then 1 else 0)(v))
  {
  }

  lemma {:induction false} NoProposals(row: Duty, all: set<ValidatorIndex>)
    requires |row.proposalsVids| == |row.proposalsFlags|
    ensures SetSum(all, AssignedIn(row, 0)) == 0 && SetSum(all, IncludedIn(row, 0)) == 0
  {
    SetSumWider({}, all, AssignedIn(row, 0));
    SetSumWider({}, all, IncludedIn(row, 0));
  }

  lemma {:induction false} SumOnlyAt(all: set<ValidatorIndex>, at: ValidatorIndex, x: int)
    requires at in all
    ensures SetSum(all, OnlyAt(at, x)) == x
  {
    SetSumOfPoint(all, at, OnlyAt(at, x));
  }

  lemma {:induction false} RowTotals(row: Duty, n: nat, all: set<ValidatorIndex>)
    requires n <= |row.proposalsVids| == |row.proposalsFlags|
    requires forall i :: 0 <= i < |row.proposalsVids| ==> row.proposalsVids[i] in all
    ensures SetSum(all, AssignedIn(row, n)) == n
    ensures SetSum(all, IncludedIn(row, n)) == Collector.CountTrue(row.proposalsFlags[..n])
    decreases n
  {
    hide AssignedIn, IncludedIn, OnlyAt, SetSum, Collector.CountTrue, ProposalsIn;
    if n == 0 {
      NoProposals(row, all);
      CountNone(row.proposalsFlags);
    } else {
      var last, flag := row.proposalsVids[n - 1], if row.proposalsFlags[n - 1] then 1 else 0;
      RowTotals(row, n - 1, all);
      OneMoreProposal(row, n - 1);
      SumOnlyAt(all, last, 1);
      SumOnlyAt(all, last, flag);
      SetSumAdds(all, AssignedIn(row, n - 1), OnlyAt(last, 1), AssignedIn(row, n));
      SetSumAdds(all, IncludedIn(row, n - 1), OnlyAt(last, flag), IncludedIn(row, n));
      CountOneMore(row.proposalsFlags, n - 1);
    }
  }

  lemma {:induction false} RowsTotals(rows: seq<Duty>, validators: Validators, n: nat, all: set<ValidatorIndex>)
    requires n <= |rows| && RowsWellFormed(rows, n) && RowsFit(rows, |rows|, validators) && validators.Keys <= all
    ensures SetSum(all, v => ProposalsBelow(rows, n, v).assignedCount) == Proposed(rows, n)
    ensures SetSum(all, v => ProposalsBelow(rows, n, v).includedCount) == BlocksBelow(rows, n)
    decreases n
  {
    hide ProposalsIn, Sums.Distinct;
    if n == 0 {
      SetSumWider({}, all, v => ProposalsBelow(rows, n, v).assignedCount);
      SetSumWider({}, all, v => ProposalsBelow(rows, n, v).includedCount);
    } else {
      var row := rows[n - 1];
      assert WellFormed(row) && RowFits(row, validators);
      RowsTotals(rows, validators, n - 1, all);
      RowTotals(row, |row.proposalsVids|, all);
      assert row.proposalsFlags[..|row.proposalsFlags|] == row.proposalsFlags;
      SetSumAdds(all, v => ProposalsBelow(rows, n - 1, v).assignedCount,
        AssignedIn(row, |row.proposalsVids|), v => ProposalsBelow(rows, n, v).assignedCount);
      SetSumAdds(all, v => ProposalsBelow(rows, n - 1, v).includedCount,
        IncludedIn(row, |row.proposalsVids|), v => ProposalsBelow(rows, n, v).includedCount);
    }
  }

  lemma {:induction false} CountedFromNothing(
      acc: Accumulators, counted: ValidatorIndex -> DutyAccumulator, v: ValidatorIndex)
    requires IsSum(acc, map[], counted)
    ensures Get(acc, v) == counted(v)
  {
    assert Get(acc, v) == Get(map[], v).Plus(counted(v));
    match counted(v) case DutyAccumulator(_, _) =>
  }

  lemma {:induction false} GetAbsent(m: Accumulators, v: ValidatorIndex)
    requires v !in m
    ensures Get(m, v) == ZERO
  {
  }

  /** The network's proposals are all those listed in the rows, and the included ones are the blocks. */
  lemma {:induction false} ProposalsAreConserved(
      d: NetworkDuties, rows: seq<Duty>, validators: Validators, lEpoch: nat, rEpoch: nat)
    requires RowsFit(rows, |rows|, validators)
    requires RowsWellFormed(rows, |rows|) && IsAccounting(d, rows, validators, lEpoch, rEpoch)
    ensures TotalAssigned(d.proposals) == Proposed(rows, |rows|)
    ensures TotalIncluded(d.proposals) == BlocksBelow(rows, |rows|)
  {
    hide RowFits, WellFormed, ProposalsBelow, SyncsBelow, AreAttestations, Tight, IsSum, Get, DutyAccumulator.Plus;
    var n, all := |rows|, validators.Keys + d.proposals.Keys;
    RowsTotals(rows, validators, n, all);
    forall v ensures Get(d.proposals, v) == ProposalsBelow(rows, n, v) {
      CountedFromNothing(d.proposals, ProposalCounts(rows, n), v);
    }
    SetSumAgrees(all, v => Get(d.proposals, v).assignedCount, v => ProposalsBelow(rows, n, v).assignedCount);
    SetSumAgrees(all, v => Get(d.proposals, v).includedCount, v => ProposalsBelow(rows, n, v).includedCount);
    forall v | v !in d.proposals ensures Get(d.proposals, v) == ZERO { GetAbsent(d.proposals, v); }
    SetSumWider(d.proposals.Keys, all, (v: ValidatorIndex) => Get(d.proposals, v).assignedCount);
    SetSumWider(d.proposals.Keys, all, (v: ValidatorIndex) => Get(d.proposals, v).includedCount);
  }
}
