/** For which row epochs the accounting's check "misses above assigned" can fire at all. */
module FrameAlarm {
  import opened ValidatorState
  import opened DutiesDb
  import opened DutyState
  import opened FrameDuties
  import opened FrameDutiesLemmas
  import Sums

  /** At most one row is at or before the frame's first epoch, and at most one at or after its last. */
  ghost predicate AtMostOneOutward(epochs: seq<nat>, lEpoch: nat, rEpoch: nat) {
    forall i, j :: 0 <= i < j < |epochs| ==> !SameSide(epochs[i], epochs[j], lEpoch, rEpoch)
  }

  predicate SameSide(x: nat, y: nat, lEpoch: nat, rEpoch: nat) {
    (x <= lEpoch && y <= lEpoch) || (x >= rEpoch && y >= rEpoch)
  }

  function EpochsOf(rows: seq<Duty>): (r: seq<nat>)
    ensures |r| == |rows|
  {
    seq(|rows|, i requires 0 <= i < |rows| => rows[i].epoch)
  }

  /** Epochs outside the frame are moved to its nearest end. */
  function Clamped(e: nat, lEpoch: nat, rEpoch: nat): nat {
    if e <= lEpoch then lEpoch else if e >= rEpoch then rEpoch else e
  }

  lemma {:induction false} ImageFits(s: set<nat>, f: nat -> nat, a: set<nat>)
    requires forall x, y :: x in s && y in s && f(x) == f(y) ==> x == y
    requires forall x :: x in s ==> f(x) in a
    ensures |s| <= |a|
  {
    if s != {} {
      var x :| x in s;
      ImageFits(s - {x}, f, a - {f(x)});
    }
  }

  lemma {:induction false} MissedInRow(rows: seq<Duty>, v: ValidatorIndex, e: nat) returns (k: nat)
    requires e in MissedEpochs(rows, |rows|, v)
    ensures k < |rows| && v in rows[k].missedAttestationVids && rows[k].epoch == e && EpochsOf(rows)[k] == e
  {
    k :| k < |rows| && v in rows[k].missedAttestationVids && rows[k].epoch == e;
  }

  /** An active validator stays active at the end of the frame that is nearest to its missed epoch. */
  lemma {:induction false} ClampedIsActive(v: ValidatorState, lEpoch: nat, rEpoch: nat, e: nat)
    requires lEpoch <= rEpoch && IsActive(v, e) && ActiveEpochs(v, lEpoch, rEpoch) != {}
    ensures Clamped(e, lEpoch, rEpoch) in ActiveEpochs(v, lEpoch, rEpoch)
  {
    var inside :| inside in ActiveEpochs(v, lEpoch, rEpoch);
  }

  lemma {:induction false} ClampedApart(epochs: seq<nat>, i: nat, j: nat, lEpoch: nat, rEpoch: nat)
    requires i < |epochs| && j < |epochs| && i != j && lEpoch < rEpoch && AtMostOneOutward(epochs, lEpoch, rEpoch)
    requires epochs[i] != epochs[j]
    ensures Clamped(epochs[i], lEpoch, rEpoch) != Clamped(epochs[j], lEpoch, rEpoch)
  {
    assert !SameSide(epochs[if i < j then i else j], epochs[if i < j then j else i], lEpoch, rEpoch);
  }

  /** A validator's missed epochs, moved into the frame, are different epochs in which it was active. */
  lemma {:induction false} MissesFitInFrame(
      rows: seq<Duty>, validators: Validators, lEpoch: nat, rEpoch: nat, v: ValidatorIndex)
    requires RowsFit(rows, |rows|, validators) && EpochsDistinct(rows, |rows|) && lEpoch <= rEpoch
    requires |rows| == rEpoch - lEpoch + 1 && AtMostOneOutward(EpochsOf(rows), lEpoch, rEpoch)
    requires v in validators && ActiveEpochs(validators[v], lEpoch, rEpoch) != {}
    ensures |MissedEpochs(rows, |rows|, v)| <= |ActiveEpochs(validators[v], lEpoch, rEpoch)|
  {
    hide WellFormed, ProposersKnown, SyncsFit, ActiveEpochs, MissedEpochs, EpochsOf, AtMostOneOutward, Clamped;
    var missed, active := MissedEpochs(rows, |rows|, v), ActiveEpochs(validators[v], lEpoch, rEpoch);
    var clamp := (e: nat) => Clamped(e, lEpoch, rEpoch);
    forall e | e in missed ensures clamp(e) in active {
      var k := MissedInRow(rows, v, e);
      assert RowFits(rows[k], validators);
      ClampedIsActive(validators[v], lEpoch, rEpoch, e);
    }
    forall x, y | x in missed && y in missed && clamp(x) == clamp(y) ensures x == y {
      var i := MissedInRow(rows, v, x);
      var j := MissedInRow(rows, v, y);
      if i != j && lEpoch < rEpoch && x != y { ClampedApart(EpochsOf(rows), i, j, lEpoch, rEpoch); }
    }
    ImageFits(missed, clamp, active);
  }

  /** No validator, whatever it missed, makes the check fire on these row epochs. */
  ghost predicate AlarmCannotFire(epochs: seq<nat>, lEpoch: nat, rEpoch: nat) {
    forall rows, validators :: RowsFit(rows, |rows|, validators) && EpochsOf(rows) == epochs ==>
      NoneExceeds(validators, MissesOver(rows), lEpoch, rEpoch)
  }

  lemma {:induction false} NoneExceedsIn(rows: seq<Duty>, validators: Validators, lEpoch: nat, rEpoch: nat)
    requires RowsFit(rows, |rows|, validators) && EpochsDistinct(rows, |rows|) && lEpoch <= rEpoch
    requires |rows| == rEpoch - lEpoch + 1 && AtMostOneOutward(EpochsOf(rows), lEpoch, rEpoch)
    ensures NoneExceeds(validators, MissesOver(rows), lEpoch, rEpoch)
  {
    hide CountActiveEpochs, ActiveEpochs, MissedEpochs, RowFits, AtMostOneOutward;
    forall v | v in validators && CountActiveEpochs(validators[v], lEpoch, rEpoch) > 0
      ensures MissesBelow(rows, |rows|, v) <= CountActiveEpochs(validators[v], lEpoch, rEpoch)
    {
      CountActiveIsExact(validators[v], lEpoch, rEpoch);
      MissesCountEpochs(rows, |rows|, v);
      MissesFitInFrame(rows, validators, lEpoch, rEpoch, v);
    }
  }

  // ----- Otherwise it can -----

  /** Rows of the epochs in which validator 7 misses twice, at `i` and at `j`, and nothing else happens. */
  function TwoMisses(epochs: seq<nat>, i: nat, j: nat): (r: seq<Duty>)
    ensures |r| == |epochs|
  {
    seq(|epochs|, k requires 0 <= k < |epochs| =>
      Duty(epochs[k], if k == i || k == j then [7] else [], [], [], [], []))
  }

  lemma {:induction false} TwoMissesCount(epochs: seq<nat>, i: nat, j: nat, n: nat)
    requires i < j < |epochs| && n <= |epochs|
    ensures MissesBelow(TwoMisses(epochs, i, j), n, 7) == (if n > i then 1 else 0) + (if n > j then 1 else 0)
  {
    if n > 0 { TwoMissesCount(epochs, i, j, n - 1); }
  }

  lemma {:induction false} TwoMissesFit(epochs: seq<nat>, i: nat, j: nat, validators: Validators)
    requires i < j < |epochs| && 7 in validators
    requires IsActive(validators[7], epochs[i]) && IsActive(validators[7], epochs[j])
    ensures RowsFit(TwoMisses(epochs, i, j), |epochs|, validators)
    ensures EpochsOf(TwoMisses(epochs, i, j)) == epochs
  {
    Sums.DistinctByIndex([7]);
    Sums.DistinctByIndex<nat>([]);
  }

  /** Two rows on the same side: a validator active from there up to one epoch of the frame. */
  lemma {:induction false} TwoRowsRaiseAlarm(epochs: seq<nat>, lEpoch: nat, rEpoch: nat, i: nat, j: nat)
    requires lEpoch <= rEpoch && i < j < |epochs|
    requires SameSide(epochs[i], epochs[j], lEpoch, rEpoch)
    ensures !AlarmCannotFire(epochs, lEpoch, rEpoch)
  {
    hide RowFits, TwoMisses;
    var low := epochs[i] <= lEpoch && epochs[j] <= lEpoch;
    var state := if low then ValidatorState(Eth1, 32_000_000_000, false, 0, lEpoch + 1, lEpoch + 257)
      else ValidatorState(Eth1, 32_000_000_000, false, rEpoch, Max(epochs[i], epochs[j]) + 1, FAR_FUTURE_EPOCH);
    var rows, validators: Validators := TwoMisses(epochs, i, j), map[7 := state];
    TwoMissesFit(epochs, i, j, validators);
    TwoMissesCount(epochs, i, j, |epochs|);
    assert CountActiveEpochs(validators[7], lEpoch, rEpoch) == 1;
    assert MissesOver(rows)(7) == 2;
    assert !NoneExceeds(validators, MissesOver(rows), lEpoch, rEpoch);
  }

  /**
     For distinct row epochs, as many as the frame has, the check cannot fire for any validator if and only if at
     most one of them is at or before the first epoch of the frame and at most one at or after the last.
   */
  lemma {:induction false} AlarmCondition(epochs: seq<nat>, lEpoch: nat, rEpoch: nat)
    requires lEpoch <= rEpoch && |epochs| == rEpoch - lEpoch + 1
    requires forall i, j :: 0 <= i < j < |epochs| ==> epochs[i] != epochs[j]
    ensures AlarmCannotFire(epochs, lEpoch, rEpoch) <==> AtMostOneOutward(epochs, lEpoch, rEpoch)
  {
    if AtMostOneOutward(epochs, lEpoch, rEpoch) {
      hide RowFits, NoneExceeds;
      forall rows: seq<Duty>, validators | RowsFit(rows, |rows|, validators) && EpochsOf(rows) == epochs
        ensures NoneExceeds(validators, MissesOver(rows), lEpoch, rEpoch)
      {
        assert forall k :: 0 <= k < |rows| ==> rows[k].epoch == EpochsOf(rows)[k];
        NoneExceedsIn(rows, validators, lEpoch, rEpoch);
      }
    } else {
      var i, j :| 0 <= i < j < |epochs| && SameSide(epochs[i], epochs[j], lEpoch, rEpoch);
      TwoRowsRaiseAlarm(epochs, lEpoch, rEpoch, i, j);
    }
  }
}
