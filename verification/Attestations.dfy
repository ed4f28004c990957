/** Attestations take attesters off the miss set; sync aggregates add misses to sync duties. */
module Attestations {
  import opened Wrappers
  import opened Bits

  type ValidatorIndex = nat

  datatype CommitteeKey = CommitteeKey(slot: nat, index: nat)

  type Committees = map<CommitteeKey, seq<ValidatorIndex>>

  datatype Attestation = Attestation(slot: nat, aggregationBits: seq<Byte>, committeeBits: seq<Byte>)

  datatype SyncDuty = SyncDuty(validatorIndex: ValidatorIndex, missedCount: nat)

  function SetIndicesBelow(bits: seq<bool>, n: nat): seq<nat>
    requires n <= |bits|
  {
    if n == 0 then [] else SetIndicesBelow(bits, n - 1) + (if bits[n - 1] then [n - 1] else [])
  }

  function CommitteeIndices(a: Attestation): seq<nat> {
    var bits := BitvectorToList(a.committeeBits);
    SetIndicesBelow(bits, |bits|)
  }

  /** The committee at a position of the attestation; empty when it is of another epoch. */
  function CommitteeAt(committees: Committees, a: Attestation, k: nat): seq<ValidatorIndex>
    requires k < |CommitteeIndices(a)|
  {
    var key := CommitteeKey(a.slot, CommitteeIndices(a)[k]);
    if key in committees then committees[key] else []
  }

  /** Where the bits of that committee start: after those of the known committees before it. */
  function Offset(committees: Committees, a: Attestation, k: nat): nat
    requires k <= |CommitteeIndices(a)|
  {
    if k == 0 then 0 else Offset(committees, a, k - 1) + |CommitteeAt(committees, a, k - 1)|
  }

  /** The `j`-th member of the `k`-th committee has its bit set. */
  predicate HasBit(committees: Committees, a: Attestation, k: nat, j: nat)
    requires k < |CommitteeIndices(a)|
  {
    && BitlistToList(a.aggregationBits).Success?
    && j < |CommitteeAt(committees, a, k)|
    && Offset(committees, a, k) + j < |BitlistToList(a.aggregationBits).value|
    && BitlistToList(a.aggregationBits).value[Offset(committees, a, k) + j]
  }

  ghost predicate AttestsIn(committees: Committees, a: Attestation, v: ValidatorIndex, k: nat)
    requires k < |CommitteeIndices(a)|
  {
    exists j :: 0 <= j < |CommitteeAt(committees, a, k)|
      && CommitteeAt(committees, a, k)[j] == v && HasBit(committees, a, k, j)
  }

  /** The bit of `v` is set in one of the first `n` committees of the attestation. */
  ghost predicate AttestsBelow(committees: Committees, a: Attestation, v: ValidatorIndex, n: nat)
    requires n <= |CommitteeIndices(a)|
  {
    exists k :: 0 <= k < n && AttestsIn(committees, a, v, k)
  }

  // ----- What the bits mean, committee index by committee index -----

  /** The attestation names committee `i`, and it is one of those looked up. */
  predicate IsNamed(committees: Committees, a: Attestation, i: nat) {
    IsSet(a.committeeBits, i) && CommitteeKey(a.slot, i) in committees
  }

  /** The sizes of the named committees with an index below `i`. */
  function SizesBelow(committees: Committees, a: Attestation, i: nat): nat {
    if i == 0 then 0
    else
      SizesBelow(committees, a, i - 1)
      + (if IsNamed(committees, a, i - 1) then |committees[CommitteeKey(a.slot, i - 1)]| else 0)
  }

  /** The member at position `j` of committee `i` has its aggregation bit set: that after all lower committees. */
  predicate HasVoted(committees: Committees, a: Attestation, i: nat, j: nat)
    requires IsNamed(committees, a, i)
  {
    && BitlistToList(a.aggregationBits).Success?
    && SizesBelow(committees, a, i) + j < |BitlistToList(a.aggregationBits).value|
    && BitlistToList(a.aggregationBits).value[SizesBelow(committees, a, i) + j]
  }

  /** `v` sits at a position of a named committee whose bit is set. */
  ghost predicate Attests(committees: Committees, a: Attestation, v: ValidatorIndex) {
    exists i, j :: IsNamed(committees, a, i) && IsVoter(committees, a, i, j, v)
  }

  ghost predicate IsVoter(committees: Committees, a: Attestation, i: nat, j: nat, v: ValidatorIndex)
    requires IsNamed(committees, a, i)
  {
    var committee := committees[CommitteeKey(a.slot, i)];
    j < |committee| && committee[j] == v && HasVoted(committees, a, i, j)
  }

  predicate Ascending(indices: seq<nat>) {
    forall k, l :: 0 <= k < l < |indices| ==> indices[k] < indices[l]
  }

  lemma {:induction false} IndicesAscend(bits: seq<bool>, n: nat)
    requires n <= |bits|
    ensures Ascending(SetIndicesBelow(bits, n))
    ensures forall i :: i in SetIndicesBelow(bits, n) <==> 0 <= i < n && bits[i]
    decreases n
  {
    if n > 0 {
      var shorter := SetIndicesBelow(bits, n - 1);
      IndicesAscend(bits, n - 1);
      forall k | 0 <= k < |shorter| ensures shorter[k] < n - 1 { assert shorter[k] in shorter; }
    }
  }

  lemma {:induction false} SetIsListed(bytes: seq<Byte>, i: nat)
    ensures IsSet(bytes, i) <==> i < |BitvectorToList(bytes)| && BitvectorToList(bytes)[i]
  {
  }

  /** Lower indices come first in the list, and take up as many places as there are of them. */
  lemma {:induction false} IndicesArePrefix(bits: seq<bool>, n: nat, m: nat)
    requires n <= m <= |bits|
    ensures |SetIndicesBelow(bits, n)| <= |SetIndicesBelow(bits, m)| && |SetIndicesBelow(bits, 0)| == 0
    ensures SetIndicesBelow(bits, m)[..|SetIndicesBelow(bits, n)|] == SetIndicesBelow(bits, n)
    ensures n < m && bits[n] ==>
      |SetIndicesBelow(bits, n)| < |SetIndicesBelow(bits, m)|
      && SetIndicesBelow(bits, m)[|SetIndicesBelow(bits, n)|] == n
    decreases m
  {
    if n < m { IndicesArePrefix(bits, n, m - 1); }
  }

  /** The offset reached after the committees below `n` is the sum of the sizes of the named ones. */
  lemma {:induction false} OffsetIsSizes(committees: Committees, a: Attestation, n: nat)
    requires n <= |BitvectorToList(a.committeeBits)|
    ensures var k := |SetIndicesBelow(BitvectorToList(a.committeeBits), n)|;
      k <= |CommitteeIndices(a)| && Offset(committees, a, k) == SizesBelow(committees, a, n)
    decreases n
  {
    hide IsSet, BitvectorToList, SetIndicesBelow;
    var bits := BitvectorToList(a.committeeBits);
    IndicesArePrefix(bits, n, |bits|);
    if n > 0 {
      var k := |SetIndicesBelow(bits, n - 1)|;
      SetIsListed(a.committeeBits, n - 1);
      IndicesArePrefix(bits, n - 1, |bits|);
      OffsetIsSizes(committees, a, n - 1);
      OneMoreIndex(bits, n - 1);
      if bits[n - 1] {
        assert Offset(committees, a, k + 1) == Offset(committees, a, k) + |CommitteeAt(committees, a, k)|;
      }
    }
  }

  lemma {:induction false} OneMoreIndex(bits: seq<bool>, n: nat)
    requires n < |bits|
    ensures |SetIndicesBelow(bits, n + 1)| == |SetIndicesBelow(bits, n)| + (if bits[n] then 1 else 0)
  {
  }

  /** Going through the committees in the order of the list finds exactly the voters. */
  lemma {:induction false} AttestsByIndex(committees: Committees, a: Attestation, v: ValidatorIndex)
    ensures AttestsBelow(committees, a, v, |CommitteeIndices(a)|) <==> Attests(committees, a, v)
  {
    hide IsSet, BitvectorToList, BitlistToList, SetIndicesBelow, Offset, SizesBelow;
    var bits := BitvectorToList(a.committeeBits);
    var indices := CommitteeIndices(a);
    IndicesAscend(bits, |bits|);
    if k :| 0 <= k < |indices| && AttestsIn(committees, a, v, k) {
      var i := indices[k];
      assert i in indices;
      SetIsListed(a.committeeBits, i);
      PlaceOfIndex(committees, a, i);
      assert indices[|SetIndicesBelow(bits, i)|] == i;
      var j :| 0 <= j < |CommitteeAt(committees, a, k)|
        && CommitteeAt(committees, a, k)[j] == v && HasBit(committees, a, k, j);
      assert IsVoter(committees, a, i, j, v);
    }
    if i, j :| IsNamed(committees, a, i) && IsVoter(committees, a, i, j, v) {
      SetIsListed(a.committeeBits, i);
      PlaceOfIndex(committees, a, i);
      assert HasBit(committees, a, |SetIndicesBelow(bits, i)|, j);
      assert AttestsIn(committees, a, v, |SetIndicesBelow(bits, i)|);
    }
  }

  lemma {:induction false} PlaceOfIndex(committees: Committees, a: Attestation, i: nat)
    requires i < |BitvectorToList(a.committeeBits)| && BitvectorToList(a.committeeBits)[i]
    ensures var k := |SetIndicesBelow(BitvectorToList(a.committeeBits), i)|;
      && k < |CommitteeIndices(a)| && CommitteeIndices(a)[k] == i
      && Offset(committees, a, k) == SizesBelow(committees, a, i)
  {
    hide IsSet, BitvectorToList, SetIndicesBelow, Offset, SizesBelow;
    IndicesArePrefix(BitvectorToList(a.committeeBits), i, |BitvectorToList(a.committeeBits)|);
    OffsetIsSizes(committees, a, i);
  }

  ghost predicate AttestsInSome(committees: Committees, attestations: seq<Attestation>, v: ValidatorIndex) {
    exists a :: a in attestations && Attests(committees, a, v)
  }

  method GetSetIndices(bits: seq<bool>) returns (indices: seq<nat>)
    ensures indices == SetIndicesBelow(bits, |bits|) && Ascending(indices)
    ensures forall n :: 0 <= n < |indices| ==> indices[n] < |bits| && bits[indices[n]]
    ensures forall i :: 0 <= i < |bits| && bits[i] ==> i in indices
  {
    indices := [];
    IndicesAscend(bits, |bits|);
    for i := 0 to |bits|
      invariant indices == SetIndicesBelow(bits, i)
    {
      if bits[i] { indices := indices + [i]; }
    }
    forall n | 0 <= n < |indices| ensures indices[n] < |bits| && bits[indices[n]] {
      assert indices[n] in indices;
    }
  }

  ghost predicate BitSetFor(committee: seq<ValidatorIndex>, bits: seq<bool>, v: ValidatorIndex) {
    exists j :: 0 <= j < |bits| && j < |committee| && bits[j] && committee[j] == v
  }

  ghost predicate AmongFirst(committee: seq<ValidatorIndex>, indices: seq<nat>, n: nat, v: ValidatorIndex)
    requires n <= |indices|
  {
    exists m :: 0 <= m < n && indices[m] < |committee| && committee[indices[m]] == v
  }

  method RemoveAttesters(committee: seq<ValidatorIndex>, bits: seq<bool>, misses: set<ValidatorIndex>)
    returns (r: set<ValidatorIndex>)
    requires |bits| <= |committee|
    ensures forall v :: v in r <==> v in misses && !BitSetFor(committee, bits, v)
  {
    r := misses;
    var indices := GetSetIndices(bits);
    for n := 0 to |indices|
      invariant forall v :: v in r <==> v in misses && !AmongFirst(committee, indices, n, v)
    {
      var v := committee[indices[n]];
      forall w ensures AmongFirst(committee, indices, n + 1, w) <==> AmongFirst(committee, indices, n, w) || w == v {
      }
      if v in r { r := r - {v}; }
    }
    forall v | v in misses ensures AmongFirst(committee, indices, |indices|, v) <==> BitSetFor(committee, bits, v) {
      if j :| 0 <= j < |bits| && j < |committee| && bits[j] && committee[j] == v {
        assert j in indices;
        var m :| 0 <= m < |indices| && indices[m] == j;
      }
    }
  }

  /** `bits[from:][:len]`, as Python slices it. */
  function PythonSlice(bits: seq<bool>, from: nat, len: nat): (r: seq<bool>)
    ensures |r| <= len
  {
    if from >= |bits| then [] else if from + len >= |bits| then bits[from..] else bits[from..from + len]
  }

  /** The slice of the committee holds the bits of its members. */
  lemma {:induction false} SliceIsCommittee(committees: Committees, a: Attestation, k: nat, v: ValidatorIndex)
    requires BitlistToList(a.aggregationBits).Success? && k < |CommitteeIndices(a)|
    ensures var committee := CommitteeAt(committees, a, k);
      var bits := PythonSlice(BitlistToList(a.aggregationBits).value, Offset(committees, a, k), |committee|);
      BitSetFor(committee, bits, v) <==> AttestsIn(committees, a, v, k)
  {
    hide BitlistToList, CommitteeAt, Offset, CommitteeIndices;
    var committee := CommitteeAt(committees, a, k);
    var all, from := BitlistToList(a.aggregationBits).value, Offset(committees, a, k);
    var bits := PythonSlice(all, from, |committee|);
    if BitSetFor(committee, bits, v) {
      var j :| 0 <= j < |bits| && j < |committee| && bits[j] && committee[j] == v;
      assert bits[j] == all[from + j];
      assert HasBit(committees, a, k, j);
    }
    if AttestsIn(committees, a, v, k) {
      var j :| 0 <= j < |committee| && committee[j] == v && HasBit(committees, a, k, j);
      assert bits[j] == all[from + j];
    }
  }

  lemma {:induction false} NextCommittee(committees: Committees, a: Attestation, k: nat, v: ValidatorIndex)
    requires k < |CommitteeIndices(a)|
    ensures AttestsBelow(committees, a, v, k + 1)
      <==> AttestsBelow(committees, a, v, k) || AttestsIn(committees, a, v, k)
  {
    hide AttestsIn, CommitteeIndices;
  }

  /** Takes off everybody whose bit is set in one attestation. */
  method ProcessAttestation(a: Attestation, committees: Committees, misses: set<ValidatorIndex>)
    returns (r: Result<set<ValidatorIndex>, BitlistError>)
    ensures r.Failure? <==> BitlistToList(a.aggregationBits).Failure?
    ensures r.Success? ==> forall v :: v in r.value <==> v in misses && !Attests(committees, a, v)
  {
    hide Attests, AttestsIn, AttestsBelow, BitlistToList, BitSetFor, CommitteeIndices;
    var decoded := BitlistToList(a.aggregationBits);
    if decoded.Failure? {
      return Failure(decoded.error);
    }
    var attBits := decoded.value;
    var left := misses;
    var committeeOffset := 0;
    var indices := CommitteeIndices(a);
    NoneBelowZero(committees, a);
    for k := 0 to |indices|
      invariant committeeOffset == Offset(committees, a, k)
      invariant forall v :: v in left <==> v in misses && !AttestsBelow(committees, a, v, k)
    {
      forall v ensures AttestsBelow(committees, a, v, k + 1)
          <==> AttestsBelow(committees, a, v, k) || AttestsIn(committees, a, v, k)
      {
        NextCommittee(committees, a, k, v);
      }
      var key := CommitteeKey(a.slot, indices[k]);
      if key !in committees || committees[key] == [] {
        EmptyCommittee(committees, a, k);
        continue;
      }
      var committee := committees[key];
      forall v ensures BitSetFor(committee, PythonSlice(attBits, committeeOffset, |committee|), v)
          <==> AttestsIn(committees, a, v, k)
      {
        SliceIsCommittee(committees, a, k, v);
      }
      left := RemoveAttesters(committee, PythonSlice(attBits, committeeOffset, |committee|), left);
      committeeOffset := committeeOffset + |committee|;
    }
    forall v ensures AttestsBelow(committees, a, v, |indices|) <==> Attests(committees, a, v) {
      AttestsByIndex(committees, a, v);
    }
    return Success(left);
  }

  lemma {:induction false} NoneBelowZero(committees: Committees, a: Attestation)
    ensures forall v :: !AttestsBelow(committees, a, v, 0)
  {
  }

  lemma {:induction false} EmptyCommittee(committees: Committees, a: Attestation, k: nat)
    requires k < |CommitteeIndices(a)| && CommitteeAt(committees, a, k) == []
    ensures forall v :: !AttestsIn(committees, a, v, k)
  {
  }

  method ProcessAttestations(attestations: seq<Attestation>, committees: Committees, misses: set<ValidatorIndex>)
    returns (r: Result<set<ValidatorIndex>, BitlistError>)
    ensures r.Failure? <==> exists a :: a in attestations && BitlistToList(a.aggregationBits).Failure?
    ensures r.Success? ==> forall v :: v in r.value <==> v in misses && !AttestsInSome(committees, attestations, v)
  {
    hide Attests, BitlistToList;
    var left := misses;
    for n := 0 to |attestations|
      invariant forall m :: 0 <= m < n ==> BitlistToList(attestations[m].aggregationBits).Success?
      invariant forall v :: v in left <==> v in misses && !AttestsInSome(committees, attestations[..n], v)
    {
      var step := ProcessAttestation(attestations[n], committees, left);
      if step.Failure? {
        assert attestations[n] in attestations;
        return step;
      }
      left := step.value;
      assert attestations[..n + 1] == attestations[..n] + [attestations[n]];
    }
    assert attestations[..|attestations|] == attestations;
    return Success(left);
  }

  /** Neither the order nor the repetition of attestations matters. */
  lemma {:induction false} OrderDoesNotMatter(
      committees: Committees, some: seq<Attestation>, others: seq<Attestation>, v: ValidatorIndex)
    requires forall a :: a in some <==> a in others
    ensures AttestsInSome(committees, some, v) <==> AttestsInSome(committees, others, v)
  {
    hide Attests;
  }

  /** Handling attestations block by block is handling them all. */
  lemma {:induction false} BlocksAddUp(
      committees: Committees, some: seq<Attestation>, others: seq<Attestation>, v: ValidatorIndex)
    ensures AttestsInSome(committees, some + others, v)
      <==> AttestsInSome(committees, some, v) || AttestsInSome(committees, others, v)
  {
    hide Attests;
    if AttestsInSome(committees, some, v) {
      var a :| a in some && Attests(committees, a, v);
      assert a in some + others;
    }
    if AttestsInSome(committees, others, v) {
      var a :| a in others && Attests(committees, a, v);
      assert a in some + others;
    }
  }

  /** An unset bit counts a miss for its position; the committee may be shorter than the bits only where bits are set. */
  method ProcessSync(syncBits: seq<Byte>, duties: seq<SyncDuty>) returns (r: Option<seq<SyncDuty>>)
    ensures r.None? <==> exists i :: |duties| <= i < 8 * |syncBits| && !BitvectorToList(syncBits)[i]
    ensures r.Some? ==> |r.value| == |duties| && forall i :: 0 <= i < |duties| ==>
      r.value[i] == if i < 8 * |syncBits| && !BitvectorToList(syncBits)[i]
        then duties[i].(missedCount := duties[i].missedCount + 1) else duties[i]
  {
    hide BitvectorToList;
    var bits := BitvectorToList(syncBits);
    var counted := duties;
    for i := 0 to |bits|
      invariant |counted| == |duties|
      invariant forall k :: |duties| <= k < i ==> bits[k]
      invariant forall k :: 0 <= k < |counted| ==>
        counted[k] == if k < i && !bits[k] then duties[k].(missedCount := duties[k].missedCount + 1) else duties[k]
    {
      if !bits[i] {
        if i >= |counted| {
          return None;
        }
        counted := counted[i := counted[i].(missedCount := counted[i].missedCount + 1)];
      }
    }
    return Some(counted);
  }
}
