/** One epoch in the collector: from the blocks of two epochs to the row that is stored. */
module Collector {
  import opened Wrappers
  import opened Bits
  import opened BlockRoots
  import opened Attestations
  import opened DutiesDb

  const SYNC_COMMITTEE_SIZE := 512

  datatype Block = Block(attestations: seq<Attestation>, syncBits: seq<Byte>)

  /** An entry of the proposer duties, which are keyed by slot. */
  datatype ProposalDuty = ProposalDuty(slot: nat, validatorIndex: ValidatorIndex, isProposed: bool)

  datatype Committee = Committee(slot: nat, index: nat, validators: seq<ValidatorIndex>)

  datatype CollectorError = BadBitlist | UnknownSlot | SyncBitsTooLong | TooManyProposals | TooManySyncs

  // ----- Attestation duties -----

  ghost predicate IsMember(committees: seq<Committee>, v: ValidatorIndex) {
    exists k :: 0 <= k < |committees| && v in committees[k].validators
  }

  function KeyOf(committee: Committee): CommitteeKey {
    CommitteeKey(committee.slot, committee.index)
  }

  ghost predicate HasCommittee(list: seq<Committee>, key: CommitteeKey) {
    exists k :: 0 <= k < |list| && KeyOf(list[k]) == key
  }

  /** No later entry of the list has the same slot and index. */
  ghost predicate IsLastOfKey(list: seq<Committee>, k: nat)
    requires k < |list|
  {
    forall j :: k < j < |list| ==> KeyOf(list[j]) != KeyOf(list[k])
  }

  /**
     Exactly the listed committees can be looked up, each as it is listed last, and the possible misses are the
     members of all of them, of the replaced ones too.
   */
  ghost predicate ArePrepared(list: seq<Committee>, committees: Committees, misses: set<ValidatorIndex>) {
    && (forall v :: v in misses <==> IsMember(list, v))
    && (forall key :: key in committees <==> HasCommittee(list, key))
    && forall k :: 0 <= k < |list| && IsLastOfKey(list, k) ==>
         KeyOf(list[k]) in committees && committees[KeyOf(list[k])] == list[k].validators
  }

  method PrepareAttestationDuties(list: seq<Committee>)
    returns (committees: Committees, misses: set<ValidatorIndex>)
    ensures ArePrepared(list, committees, misses)
  {
    hide ArePrepared;
    committees, misses := map[], {};
    assert ArePrepared(list[..0], committees, misses) by { NonePrepared(list); }
    for n := 0 to |list|
      invariant ArePrepared(list[..n], committees, misses)
    {
      OneMorePrepared(list, n, committees, misses);
      committees := committees[KeyOf(list[n]) := list[n].validators];
      misses := misses + set v | v in list[n].validators;
    }
    assert list[..|list|] == list;
  }

  lemma {:induction false} NonePrepared(list: seq<Committee>)
    ensures ArePrepared(list[..0], map[], {})
  {
  }

  lemma {:induction false} OneMorePrepared(
      list: seq<Committee>, n: nat, committees: Committees, misses: set<ValidatorIndex>)
    requires n < |list| && ArePrepared(list[..n], committees, misses)
    ensures ArePrepared(list[..n + 1],
      committees[KeyOf(list[n]) := list[n].validators], misses + set v | v in list[n].validators)
  {
    hide IsMember, HasCommittee, IsLastOfKey;
    MembersGrow(list, n);
    CommitteesGrow(list, n, committees, committees[KeyOf(list[n]) := list[n].validators]);
  }

  lemma {:induction false} CommitteesGrow(list: seq<Committee>, n: nat, before: Committees, after: Committees)
    requires n < |list| && after == before[KeyOf(list[n]) := list[n].validators]
    requires forall key :: key in before <==> HasCommittee(list[..n], key)
    requires forall k :: 0 <= k < n && IsLastOfKey(list[..n], k) ==>
      KeyOf(list[k]) in before && before[KeyOf(list[k])] == list[k].validators
    ensures forall key :: key in after <==> HasCommittee(list[..n + 1], key)
    ensures forall k :: 0 <= k < n + 1 && IsLastOfKey(list[..n + 1], k) ==>
      KeyOf(list[k]) in after && after[KeyOf(list[k])] == list[k].validators
  {
    var shorter, longer := list[..n], list[..n + 1];
    assert longer == shorter + [list[n]];
    forall key ensures key in after <==> HasCommittee(longer, key) {
      if key in before {
        var k :| 0 <= k < n && KeyOf(shorter[k]) == key;
        assert KeyOf(longer[k]) == key;
      }
      if key == KeyOf(list[n]) { assert KeyOf(longer[n]) == key; }
      if HasCommittee(longer, key) {
        var k :| 0 <= k < n + 1 && KeyOf(longer[k]) == key;
        if k < n { assert KeyOf(shorter[k]) == key; }
      }
    }
    forall k | 0 <= k < n + 1 && IsLastOfKey(longer, k)
      ensures KeyOf(list[k]) in after && after[KeyOf(list[k])] == list[k].validators
    {
      if k < n {
        assert KeyOf(longer[n]) != KeyOf(longer[k]);
        forall j | k < j < n ensures KeyOf(shorter[j]) != KeyOf(shorter[k]) {
          assert KeyOf(longer[j]) != KeyOf(longer[k]);
        }
        assert IsLastOfKey(shorter, k);
      }
    }
  }

  lemma {:induction false} MembersGrow(list: seq<Committee>, n: nat)
    requires n < |list|
    ensures forall v :: IsMember(list[..n + 1], v) <==> IsMember(list[..n], v) || v in list[n].validators
  {
    forall v ensures IsMember(list[..n + 1], v) <==> IsMember(list[..n], v) || v in list[n].validators {
      if IsMember(list[..n], v) {
        var k :| 0 <= k < n && v in list[..n][k].validators;
        assert v in list[..n + 1][k].validators;
      }
      if IsMember(list[..n + 1], v) {
        var k :| 0 <= k < n + 1 && v in list[..n + 1][k].validators;
        if k < n { assert v in list[..n][k].validators; }
      }
      if v in list[n].validators {
        assert v in list[..n + 1][n].validators;
      }
    }
  }

  // ----- Blocks of the duty epoch -----

  function BlocksBelow(roots: seq<SlotBlockRoot>, n: nat): nat
    requires n <= |roots|
  {
    if n == 0 then 0 else BlocksBelow(roots, n - 1) + (if roots[n - 1].root.Some? then 1 else 0)
  }

  /** The bit of committee position `i` is there and not set. */
  predicate MissesSync(block: Block, i: nat) {
    i < 8 * |block.syncBits| && !BitvectorToList(block.syncBits)[i]
  }

  function SyncMissesBelow(roots: seq<SlotBlockRoot>, block: BlockRoot -> Block, n: nat, i: nat): nat
    requires n <= |roots|
  {
    if n == 0 then 0
    else
      var last := roots[n - 1].root;
      SyncMissesBelow(roots, block, n - 1, i) + (if last.Some? && MissesSync(block(last.value), i) then 1 else 0)
  }

  /** Nobody misses more blocks than there are. */
  lemma {:induction false} MissesAtMostBlocks(roots: seq<SlotBlockRoot>, block: BlockRoot -> Block, n: nat, i: nat)
    requires n <= |roots|
    ensures SyncMissesBelow(roots, block, n, i) <= BlocksBelow(roots, n)
    decreases n
  {
    if n > 0 { MissesAtMostBlocks(roots, block, n - 1, i); }
  }

  ghost predicate SlotsDistinct(roots: seq<SlotBlockRoot>) {
    forall i, j :: 0 <= i < j < |roots| ==> roots[i].slot != roots[j].slot
  }

  ghost predicate DutiesDistinct(duties: seq<ProposalDuty>) {
    forall i, j :: 0 <= i < j < |duties| ==> duties[i].slot != duties[j].slot
  }

  ghost predicate HasBlockBelow(roots: seq<SlotBlockRoot>, n: nat, slot: nat)
    requires n <= |roots|
  {
    exists k :: 0 <= k < n && roots[k].slot == slot && roots[k].root.Some?
  }

  function CountTrue(flags: seq<bool>): nat {
    if flags == [] then 0 else CountTrue(flags[..|flags| - 1]) + (if flags[|flags| - 1] then 1 else 0)
  }

  function Flags(duties: seq<ProposalDuty>): (r: seq<bool>)
    ensures |r| == |duties|
  {
    seq(|duties|, i requires 0 <= i < |duties| => duties[i].isProposed)
  }

  lemma {:induction false} OneMoreTrue(flags: seq<bool>, i: nat)
    requires i < |flags| && !flags[i]
    ensures CountTrue(flags[i := true]) == CountTrue(flags) + 1
  {
    var front, more := flags[..|flags| - 1], flags[i := true];
    if i < |flags| - 1 {
      OneMoreTrue(front, i);
      assert more[..|more| - 1] == front[i := true];
    } else {
      assert more[..|more| - 1] == front;
    }
  }

  /** `propose_duties_by_slot[slot].is_proposed = True`. */
  method MarkProposed(duties: seq<ProposalDuty>, slot: nat) returns (r: Option<seq<ProposalDuty>>)
    requires DutiesDistinct(duties)
    ensures r.None? <==> forall i :: 0 <= i < |duties| ==> duties[i].slot != slot
    ensures r.Some? ==> |r.value| == |duties| && forall i :: 0 <= i < |duties| ==>
      r.value[i] == if duties[i].slot == slot then duties[i].(isProposed := true) else duties[i]
    ensures r.Some? && (forall i :: 0 <= i < |duties| && duties[i].slot == slot ==> !duties[i].isProposed) ==>
      CountTrue(Flags(r.value)) == CountTrue(Flags(duties)) + 1
  {
    for i := 0 to |duties|
      invariant forall k :: 0 <= k < i ==> duties[k].slot != slot
    {
      if duties[i].slot == slot {
        var marked := duties[i := duties[i].(isProposed := true)];
        if !duties[i].isProposed {
          OneMoreTrue(Flags(duties), i);
          assert Flags(marked) == Flags(duties)[i := true];
        }
        return Some(marked);
      }
    }
    return None;
  }

  /** What the loop keeps for the duty epoch: which proposals are done, and who missed how many sync bits. */
  ghost predicate DutiesUpTo(
      roots: seq<SlotBlockRoot>, block: BlockRoot -> Block, n: nat,
      proposals: seq<ProposalDuty>, syncs: seq<SyncDuty>)
    requires n <= |roots|
  {
    && (forall i :: 0 <= i < |proposals| ==>
          (proposals[i].isProposed <==> HasBlockBelow(roots, n, proposals[i].slot)))
    && CountTrue(Flags(proposals)) == BlocksBelow(roots, n)
    && (forall i :: 0 <= i < |syncs| ==> syncs[i].missedCount == SyncMissesBelow(roots, block, n, i))
  }

  method ProcessDutyBlock(
      ghost roots: seq<SlotBlockRoot>, block: BlockRoot -> Block, ghost n: nat,
      slot: nat, syncBits: seq<Byte>, proposals: seq<ProposalDuty>, syncs: seq<SyncDuty>)
    returns (r: Result<(seq<ProposalDuty>, seq<SyncDuty>), CollectorError>)
    requires n < |roots| && SlotsDistinct(roots) && DutiesDistinct(proposals)
    requires roots[n].root.Some? && roots[n].slot == slot && syncBits == block(roots[n].root.value).syncBits
    requires DutiesUpTo(roots, block, n, proposals, syncs)
    ensures r.Success? ==> DutiesUpTo(roots, block, n + 1, r.value.0, r.value.1)
    ensures r.Success? ==> SameDuties(proposals, r.value.0) && SameSyncs(syncs, r.value.1)
    ensures r.Success? <==>
      (exists i :: 0 <= i < |proposals| && proposals[i].slot == slot)
      && forall i :: |syncs| <= i < 8 * |syncBits| ==> BitvectorToList(syncBits)[i]
  {
    hide BitvectorToList;
    assert !HasBlockBelow(roots, n, slot);
    var marked := MarkProposed(proposals, slot);
    if marked.None? {
      return Failure(UnknownSlot);
    }
    var processed := ProcessSync(syncBits, syncs);
    if processed.None? {
      return Failure(SyncBitsTooLong);
    }
    assert forall s :: HasBlockBelow(roots, n + 1, s) <==> HasBlockBelow(roots, n, s) || s == slot by {
    }
    return Success((marked.value, processed.value));
  }

  ghost predicate SameDuties(a: seq<ProposalDuty>, b: seq<ProposalDuty>) {
    |a| == |b| && forall i :: 0 <= i < |a| ==>
      a[i].slot == b[i].slot && a[i].validatorIndex == b[i].validatorIndex
  }

  ghost predicate SameSyncs(a: seq<SyncDuty>, b: seq<SyncDuty>) {
    |a| == |b| && forall i :: 0 <= i < |a| ==> a[i].validatorIndex == b[i].validatorIndex
  }

  lemma {:induction false} SameSlotsDistinct(a: seq<ProposalDuty>, b: seq<ProposalDuty>)
    requires DutiesDistinct(a) && SameDuties(a, b)
    ensures DutiesDistinct(b)
  {
  }

  lemma {:induction false} PrefixDistinct(a: seq<SlotBlockRoot>, b: seq<SlotBlockRoot>)
    requires SlotsDistinct(a + b)
    ensures SlotsDistinct(a)
  {
    forall i, j | 0 <= i < j < |a| ensures a[i].slot != a[j].slot {
      assert (a + b)[i].slot != (a + b)[j].slot;
    }
  }

  /** `v` attested in one of the blocks of the first `n` slots. */
  ghost predicate AttestedBelow(
      roots: seq<SlotBlockRoot>, block: BlockRoot -> Block, committees: Committees, n: nat, v: ValidatorIndex)
    requires n <= |roots|
  {
    exists k :: 0 <= k < n && roots[k].root.Some?
      && AttestsInSome(committees, block(roots[k].root.value).attestations, v)
  }

  /** The outcome of an epoch: who attested, who proposed, and how many sync bits were missed. */
  datatype EpochOutcome = EpochOutcome(
    misses: set<ValidatorIndex>, proposals: seq<ProposalDuty>, syncs: seq<SyncDuty>)

  ghost predicate BitlistsDecode(b: Block) {
    forall a :: a in b.attestations ==> BitlistToList(a.aggregationBits).Success?
  }

  /** A block of the duty epoch has a proposer, and its unset sync bits are all of the committee. */
  ghost predicate HasProposer(proposers: seq<ProposalDuty>, committeeSize: nat, slot: nat, b: Block) {
    && (exists i :: 0 <= i < |proposers| && proposers[i].slot == slot)
    && forall i :: committeeSize <= i < 8 * |b.syncBits| ==> BitvectorToList(b.syncBits)[i]
  }

  /** The first `n` slots hold nothing the loop stops at. */
  ghost predicate BlocksFit(
      dutyRoots: seq<SlotBlockRoot>, nextRoots: seq<SlotBlockRoot>, n: nat, block: BlockRoot -> Block,
      proposers: seq<ProposalDuty>, committeeSize: nat)
    requires n <= |dutyRoots| + |nextRoots|
  {
    forall k :: 0 <= k < n && (dutyRoots + nextRoots)[k].root.Some? ==>
      BlockFits(dutyRoots, (dutyRoots + nextRoots)[k], k, block, proposers, committeeSize)
  }

  ghost predicate BlockFits(
      dutyRoots: seq<SlotBlockRoot>, r: SlotBlockRoot, k: nat, block: BlockRoot -> Block,
      proposers: seq<ProposalDuty>, committeeSize: nat)
    requires r.root.Some?
  {
    && BitlistsDecode(block(r.root.value))
    && (k < |dutyRoots| ==> HasProposer(proposers, committeeSize, r.slot, block(r.root.value)))
  }

  method CheckDuties(
      dutyRoots: seq<SlotBlockRoot>, nextRoots: seq<SlotBlockRoot>, block: BlockRoot -> Block,
      committees: Committees, members: set<ValidatorIndex>,
      proposers: seq<ProposalDuty>, syncCommittee: seq<ValidatorIndex>, slotsPerEpoch: nat)
    returns (r: Result<EpochOutcome, CollectorError>)
    requires SlotsDistinct(dutyRoots + nextRoots) && DutiesDistinct(proposers)
    requires forall i :: 0 <= i < |proposers| ==> !proposers[i].isProposed
    ensures r.Success? ==>
      && DutiesUpTo(dutyRoots, block, |dutyRoots|, r.value.proposals, r.value.syncs)
      && SameDuties(proposers, r.value.proposals) && |r.value.syncs| == |syncCommittee|
      && (forall i :: 0 <= i < |syncCommittee| ==> r.value.syncs[i].validatorIndex == syncCommittee[i])
      && forall v :: v in r.value.misses <==>
           (v in members && !AttestedBelow(dutyRoots + nextRoots, block, committees, |dutyRoots + nextRoots|, v))
    ensures r.Success? <==>
      && BlocksFit(dutyRoots, nextRoots, |dutyRoots| + |nextRoots|, block, proposers, |syncCommittee|)
      && |proposers| <= slotsPerEpoch && |syncCommittee| <= 512
  {
    hide BitvectorToList, AttestsInSome, BlocksBelow, SyncMissesBelow, HasBlockBelow, DutiesUpTo, DutiesDistinct;
    var roots := dutyRoots + nextRoots;
    var misses := members;
    var proposals := proposers;
    var syncs := seq(|syncCommittee|, i requires 0 <= i < |syncCommittee| => SyncDuty(syncCommittee[i], 0));
    assert DutiesUpTo(dutyRoots, block, 0, proposals, syncs) by { NothingDone(dutyRoots, block, proposals, syncs); }
    for n := 0 to |roots|
      invariant DutiesUpTo(dutyRoots, block, if n < |dutyRoots| then n else |dutyRoots|, proposals, syncs)
      invariant SameDuties(proposers, proposals) && |syncs| == |syncCommittee|
      invariant forall i :: 0 <= i < |syncCommittee| ==> syncs[i].validatorIndex == syncCommittee[i]
      invariant BlocksFit(dutyRoots, nextRoots, n, block, proposers, |syncCommittee|)
      invariant forall v :: v in misses <==> v in members && !AttestedBelow(roots, block, committees, n, v)
    {
      forall v ensures AttestedBelow(roots, block, committees, n + 1, v) <==>
          AttestedBelow(roots, block, committees, n, v)
          || (roots[n].root.Some? && AttestsInSome(committees, block(roots[n].root.value).attestations, v))
      {
      }
      if roots[n].root.None? {
        if n < |dutyRoots| { MissedSlot(dutyRoots, block, n, proposals, syncs); }
        continue;
      }
      var b := block(roots[n].root.value);
      if roots[n] in dutyRoots {
        assert n < |dutyRoots| && dutyRoots[n] == roots[n] by {
          var k :| 0 <= k < |dutyRoots| && dutyRoots[k] == roots[n];
          assert roots[k].slot == roots[n].slot;
        }
        assert SlotsDistinct(dutyRoots) && DutiesDistinct(proposals) by {
          PrefixDistinct(dutyRoots, nextRoots);
          SameSlotsDistinct(proposers, proposals);
        }
        var done := ProcessDutyBlock(dutyRoots, block, n, roots[n].slot, b.syncBits, proposals, syncs);
        assert done.Success? <==> HasProposer(proposers, |syncCommittee|, roots[n].slot, b) by {
        }
        if done.Failure? {
          return Failure(done.error);
        }
        proposals, syncs := done.value.0, done.value.1;
      }
      var left := ProcessAttestations(b.attestations, committees, misses);
      if left.Failure? {
        return Failure(BadBitlist);
      }
      misses := left.value;
    }
    if |proposals| > slotsPerEpoch {
      return Failure(TooManyProposals);
    }
    if |syncs| > SYNC_COMMITTEE_SIZE {
      return Failure(TooManySyncs);
    }
    return Success(EpochOutcome(misses, proposals, syncs));
  }

  lemma {:induction false} NothingDone(
      roots: seq<SlotBlockRoot>, block: BlockRoot -> Block, proposals: seq<ProposalDuty>, syncs: seq<SyncDuty>)
    requires forall i :: 0 <= i < |proposals| ==> !proposals[i].isProposed
    requires forall i :: 0 <= i < |syncs| ==> syncs[i].missedCount == 0
    ensures DutiesUpTo(roots, block, 0, proposals, syncs)
  {
    NoneTrue(Flags(proposals));
  }

  lemma {:induction false} NoneTrue(flags: seq<bool>)
    requires forall i :: 0 <= i < |flags| ==> !flags[i]
    ensures CountTrue(flags) == 0
  {
    if flags != [] { NoneTrue(flags[..|flags| - 1]); }
  }

  lemma {:induction false} MissedSlot(
      roots: seq<SlotBlockRoot>, block: BlockRoot -> Block, n: nat,
      proposals: seq<ProposalDuty>, syncs: seq<SyncDuty>)
    requires n < |roots| && roots[n].root.None? && DutiesUpTo(roots, block, n, proposals, syncs)
    ensures DutiesUpTo(roots, block, n + 1, proposals, syncs)
  {
  }

  // ----- The stored row -----

  /** The row holds the outcome, the miss set in some order. */
  ghost predicate IsRowOf(row: Duty, epoch: nat, o: EpochOutcome) {
    && row.epoch == epoch
    && (forall v :: v in row.missedAttestationVids <==> v in o.misses)
    && (forall i, j :: 0 <= i < j < |row.missedAttestationVids| ==>
          row.missedAttestationVids[i] != row.missedAttestationVids[j])
    && row.proposalsVids == seq(|o.proposals|, i requires 0 <= i < |o.proposals| => o.proposals[i].validatorIndex)
    && row.proposalsFlags == Flags(o.proposals)
    && row.syncsVids == seq(|o.syncs|, i requires 0 <= i < |o.syncs| => o.syncs[i].validatorIndex)
    && row.syncsMisses == seq(|o.syncs|, i requires 0 <= i < |o.syncs| => o.syncs[i].missedCount)
  }

  method MakeRow(epoch: nat, o: EpochOutcome) returns (row: Duty)
    ensures IsRowOf(row, epoch, o)
  {
    var missed: seq<ValidatorIndex> := [];
    var left := o.misses;
    while left != {}
      invariant left <= o.misses
      invariant forall v :: v in missed <==> v in o.misses && v !in left
      invariant forall i, j :: 0 <= i < j < |missed| ==> missed[i] != missed[j]
      decreases |left|
    {
      var v :| v in left;
      missed := missed + [v];
      left := left - {v};
    }
    row := Duty(epoch, missed,
      seq(|o.proposals|, i requires 0 <= i < |o.proposals| => o.proposals[i].validatorIndex),
      Flags(o.proposals),
      seq(|o.syncs|, i requires 0 <= i < |o.syncs| => o.syncs[i].validatorIndex),
      seq(|o.syncs|, i requires 0 <= i < |o.syncs| => o.syncs[i].missedCount));
  }

  /** A row can be read back: its lists match in length, and no sync miss count passes the proposed blocks. */
  ghost predicate RowConsistent(row: Duty) {
    && |row.proposalsVids| == |row.proposalsFlags| && |row.syncsVids| == |row.syncsMisses|
    && (forall i, j :: 0 <= i < j < |row.missedAttestationVids| ==>
          row.missedAttestationVids[i] != row.missedAttestationVids[j])
    && forall i :: 0 <= i < |row.syncsMisses| ==> row.syncsMisses[i] <= CountTrue(row.proposalsFlags)
  }

  /** What the collector stores is always consistent. */
  lemma {:induction false} StoredRowIsConsistent(
      row: Duty, epoch: nat, o: EpochOutcome, dutyRoots: seq<SlotBlockRoot>, block: BlockRoot -> Block)
    requires IsRowOf(row, epoch, o)
    requires DutiesUpTo(dutyRoots, block, |dutyRoots|, o.proposals, o.syncs)
    ensures RowConsistent(row)
  {
    forall i | 0 <= i < |row.syncsMisses| ensures row.syncsMisses[i] <= CountTrue(row.proposalsFlags) {
      MissesAtMostBlocks(dutyRoots, block, |dutyRoots|, i);
      assert row.syncsMisses[i] == o.syncs[i].missedCount;
    }
  }
}
