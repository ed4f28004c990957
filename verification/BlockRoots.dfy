/**
 Which slot had a block: the state's ring buffer of block roots repeats a root over missed slots, and the
 collector turns it back into "this slot's root, or nothing". Checkpoints say which slots are looked up.
 */
module BlockRoots {
  import opened Wrappers
  import opened Arithmetic

  const SLOTS_PER_HISTORICAL_ROOT := 8192
  const MAX_CHECKPOINT_STEP := 255
  const CHECKPOINT_SLOT_DELAY_EPOCHS := 2

  type BlockRoot = nat
  const ZERO_BLOCK_ROOT: BlockRoot := 0

  type MaybeRoot = Option<BlockRoot>

  /** The blocks of a chain: the root for every slot that is not missed. */
  datatype Chain = Chain(blocks: map<nat, BlockRoot>) {
    ghost predicate Valid() {
      && (forall s :: s in blocks ==> blocks[s] != ZERO_BLOCK_ROOT)
      && (forall s, t :: s in blocks && t in blocks && s != t ==> blocks[s] != blocks[t])
    }

    /** The root of the latest block at or before a slot, zero when there is none. */
    function LatestRoot(slot: int): BlockRoot
      decreases if slot < 0 then 0 else slot + 1
    {
      if slot < 0 then ZERO_BLOCK_ROOT
      else if slot in blocks then blocks[slot]
      else LatestRoot(slot - 1)
    }

    /** What the collector wants to know of a slot. */
    function RootAt(slot: int): MaybeRoot {
      if slot >= 0 && slot in blocks then Some(blocks[slot]) else None
    }
  }

  // ----- The ring buffer -----

  /** The slot whose root stands at index `i` of the state of slot `c`: the one in the window congruent to `i`. */
  function SlotAt(c: nat, i: nat): int {
    c - 1 - (c - 1 - i) % 8192
  }

  /** The block roots held by the state of slot `c`; entries before the first slot are zero. */
  ghost predicate IsStateOf(chain: Chain, c: nat, roots: seq<BlockRoot>) {
    && |roots| == SLOTS_PER_HISTORICAL_ROOT
    && forall i :: 0 <= i < |roots| ==> roots[i] == chain.LatestRoot(SlotAt(c, i))
  }

  function Previous(i: nat, n: nat): nat
    requires i < n
  {
    if i == 0 then n - 1 else i - 1
  }

  /** Zero or repeated roots mark missing slots. */
  function Deduplicated(roots: seq<BlockRoot>, pivot: nat): (r: seq<MaybeRoot>)
    ensures |r| == |roots|
  {
    seq(|roots|, i requires 0 <= i < |roots| =>
      if roots[i] != ZERO_BLOCK_ROOT && (i == pivot || roots[i] != roots[Previous(i, |roots|)])
      then Some(roots[i]) else None)
  }

  /** `slotOf` answers header requests for the blocks of the chain. */
  ghost predicate AnswersFor(slotOf: BlockRoot -> int, chain: Chain) {
    forall s :: s in chain.blocks ==> slotOf(chain.blocks[s]) == s
  }

  /** Every entry is the root of its slot in the window when that slot has a block, and nothing otherwise. */
  ghost predicate IsMarked(chain: Chain, c: nat, marked: seq<MaybeRoot>) {
    && |marked| == SLOTS_PER_HISTORICAL_ROOT
    && forall i :: 0 <= i < |marked| ==> marked[i] == chain.RootAt(SlotAt(c, i))
  }

  /** Whatever chain the state and the headers are from, the slots of the window are told apart. */
  method GetBlockRoots(roots: seq<BlockRoot>, checkpointSlot: nat, slotOf: BlockRoot -> int)
    returns (r: seq<MaybeRoot>)
    requires |roots| == SLOTS_PER_HISTORICAL_ROOT
    ensures forall chain: Chain ::
      (chain.Valid() && IsStateOf(chain, checkpointSlot, roots) && AnswersFor(slotOf, chain)
       ==> IsMarked(chain, checkpointSlot, r))
    ensures r == MarkedRoots(roots, checkpointSlot, slotOf)
  {
    hide Deduplicated, SlotAt, IsStateOf, AnswersFor;
    var pivotIndex := checkpointSlot % SLOTS_PER_HISTORICAL_ROOT;
    r := Deduplicated(roots, pivotIndex);
    var calculatedPivotSlot :=
      if checkpointSlot > SLOTS_PER_HISTORICAL_ROOT then checkpointSlot - SLOTS_PER_HISTORICAL_ROOT else 0;
    var isPivotMissing := r[pivotIndex].None?;
    if !isPivotMissing {
      isPivotMissing := slotOf(r[pivotIndex].value) != calculatedPivotSlot;
    }
    if isPivotMissing {
      r := r[pivotIndex := None];
    }
    forall chain: Chain |
      chain.Valid() && IsStateOf(chain, checkpointSlot, roots) && AnswersFor(slotOf, chain)
      ensures IsMarked(chain, checkpointSlot, r)
    {
      forall i | 0 <= i < |r| ensures r[i] == chain.RootAt(SlotAt(checkpointSlot, i)) {
        RingBufferIsExact(chain, checkpointSlot, roots, slotOf, i);
      }
    }
  }

  function MarkedRoots(roots: seq<BlockRoot>, c: nat, slotOf: BlockRoot -> int): (r: seq<MaybeRoot>)
    requires |roots| == SLOTS_PER_HISTORICAL_ROOT
    ensures |r| == |roots|
  {
    var pivot := c % SLOTS_PER_HISTORICAL_ROOT;
    var marked := Deduplicated(roots, pivot);
    var pivotSlot := if c > SLOTS_PER_HISTORICAL_ROOT then c - SLOTS_PER_HISTORICAL_ROOT else 0;
    if marked[pivot].Some? && slotOf(marked[pivot].value) == pivotSlot then marked else marked[pivot := None]
  }

  lemma {:induction false} SlotAtWindow(c: nat, i: nat)
    requires i < SLOTS_PER_HISTORICAL_ROOT
    ensures c - SLOTS_PER_HISTORICAL_ROOT <= SlotAt(c, i) < c
    ensures SlotAt(c, i) % SLOTS_PER_HISTORICAL_ROOT == i
    ensures i == c % SLOTS_PER_HISTORICAL_ROOT <==> SlotAt(c, i) == c - SLOTS_PER_HISTORICAL_ROOT
  {
  }

  lemma {:induction false} SlotAtPrevious(c: nat, i: nat)
    requires i < SLOTS_PER_HISTORICAL_ROOT && i != c % SLOTS_PER_HISTORICAL_ROOT
    ensures SlotAt(c, Previous(i, SLOTS_PER_HISTORICAL_ROOT)) == SlotAt(c, i) - 1
  {
    hide SlotAt;
    SlotAtWindow(c, i);
    SlotIsUnique(c, SlotAt(c, i) - 1);
    PreviousModulo(SlotAt(c, i), SLOTS_PER_HISTORICAL_ROOT);
  }

  lemma {:induction false} PreviousModulo(s: int, n: nat)
    requires n == SLOTS_PER_HISTORICAL_ROOT
    ensures (s - 1) % n == Previous(s % n, n)
  {
  }

  lemma {:induction false} SlotIsUnique(c: nat, s: int)
    requires c - SLOTS_PER_HISTORICAL_ROOT <= s < c
    ensures SlotAt(c, s % SLOTS_PER_HISTORICAL_ROOT) == s
  {
  }

  /** The latest root is zero, or the root of a block no later than the slot. */
  lemma {:induction false} LatestRootIsEarlier(chain: Chain, slot: int) returns (s: int)
    ensures chain.LatestRoot(slot) == ZERO_BLOCK_ROOT || (0 <= s <= slot && s in chain.blocks
      && chain.blocks[s] == chain.LatestRoot(slot))
    decreases if slot < 0 then 0 else slot + 1
  {
    s := slot;
    if slot >= 0 && slot !in chain.blocks {
      s := LatestRootIsEarlier(chain, slot - 1);
    }
  }

  /** Away from the pivot, comparing neighbours tells whether the slot had a block. */
  lemma {:induction false} DeduplicationIsExact(chain: Chain, c: nat, roots: seq<BlockRoot>, i: nat)
    requires chain.Valid() && IsStateOf(chain, c, roots)
    requires i < |roots| && i != c % SLOTS_PER_HISTORICAL_ROOT
    ensures Deduplicated(roots, c % SLOTS_PER_HISTORICAL_ROOT)[i] == chain.RootAt(SlotAt(c, i))
  {
    SlotAtPrevious(c, i);
    var earlier := LatestRootIsEarlier(chain, SlotAt(c, i) - 1);
    assert roots[Previous(i, |roots|)] == chain.LatestRoot(SlotAt(c, i) - 1);
  }

  /** At the pivot there is no neighbour left to compare with, so the header decides. */
  lemma {:induction false} PivotIsExact(chain: Chain, c: nat, roots: seq<BlockRoot>, slotOf: BlockRoot -> int)
    requires chain.Valid() && IsStateOf(chain, c, roots)
    requires AnswersFor(slotOf, chain)
    ensures var pivot := c % SLOTS_PER_HISTORICAL_ROOT;
      MarkedRoots(roots, c, slotOf)[pivot] == chain.RootAt(SlotAt(c, pivot))
  {
    var pivot := c % SLOTS_PER_HISTORICAL_ROOT;
    SlotAtWindow(c, pivot);
    var s := LatestRootIsEarlier(chain, SlotAt(c, pivot));
  }

  /** Every entry is the root of its slot when that slot has a block, and nothing otherwise. */
  lemma {:induction false} RingBufferIsExact(
      chain: Chain, c: nat, roots: seq<BlockRoot>, slotOf: BlockRoot -> int, i: nat)
    requires chain.Valid() && IsStateOf(chain, c, roots) && i < |roots|
    requires AnswersFor(slotOf, chain)
    ensures MarkedRoots(roots, c, slotOf)[i] == chain.RootAt(SlotAt(c, i))
  {
    if i == c % SLOTS_PER_HISTORICAL_ROOT {
      PivotIsExact(chain, c, roots, slotOf);
    } else {
      DeduplicationIsExact(chain, c, roots, i);
    }
  }

  // ----- Looking slots up -----

  datatype LookupError = SlotOutOfRootsRange

  predicate InRootsRange(checkpointSlot: int, rootSlot: int) {
    rootSlot < checkpointSlot <= rootSlot + SLOTS_PER_HISTORICAL_ROOT
  }

  function SelectBlockRootBySlot(marked: seq<MaybeRoot>, checkpointSlot: int, rootSlot: int)
    : Result<MaybeRoot, LookupError>
    requires |marked| == SLOTS_PER_HISTORICAL_ROOT
  {
    if !InRootsRange(checkpointSlot, rootSlot) then Failure(SlotOutOfRootsRange)
    else Success(marked[rootSlot % SLOTS_PER_HISTORICAL_ROOT])
  }

  /** A lookup answers for the slot asked, or says that the slot is out of range. */
  lemma {:induction false} LookupIsExact(chain: Chain, c: nat, marked: seq<MaybeRoot>, slot: int)
    requires IsMarked(chain, c, marked)
    ensures SelectBlockRootBySlot(marked, c, slot) ==
      if c - 8192 <= slot < c then Success(chain.RootAt(slot)) else Failure(SlotOutOfRootsRange)
  {
    if InRootsRange(c, slot) {
      SlotIsUnique(c, slot);
    }
  }

  // ----- Checkpoints -----

  datatype FrameCheckpoint = FrameCheckpoint(slot: nat, dutyEpochs: seq<nat>)

  datatype RangeError = LeftAfterRight | LeftNotAvailable

  /** Duty epochs `first, first + 1, ...`, read at the first slot two epochs after the last of them. */
  ghost predicate IsCheckpoint(cp: FrameCheckpoint, first: nat, slotsPerEpoch: nat) {
    && 0 < |cp.dutyEpochs| <= 255
    && (forall k :: 0 <= k < |cp.dutyEpochs| ==> cp.dutyEpochs[k] == first + k)
    && cp.slot == (first + |cp.dutyEpochs| + 1) * slotsPerEpoch
  }

  /** The checkpoints cover the epochs from `first` to below `end`, each once and in order. */
  ghost predicate CoversEpochs(cps: seq<FrameCheckpoint>, first: nat, end: nat, slotsPerEpoch: nat)
    decreases |cps|
  {
    if cps == [] then first == end
    else
      var last := cps[|cps| - 1];
      && |last.dutyEpochs| <= end - first
      && IsCheckpoint(last, end - |last.dutyEpochs|, slotsPerEpoch)
      && CoversEpochs(cps[..|cps| - 1], first, end - |last.dutyEpochs|, slotsPerEpoch)
  }

  lemma {:induction false} NoCheckpoints(first: nat, slotsPerEpoch: nat)
    ensures CoversEpochs([], first, first, slotsPerEpoch)
  {
  }

  lemma {:induction false} AddCheckpoint(
      cps: seq<FrameCheckpoint>, cp: FrameCheckpoint, first: nat, next: nat, slotsPerEpoch: nat)
    requires first <= next && CoversEpochs(cps, first, next, slotsPerEpoch) && IsCheckpoint(cp, next, slotsPerEpoch)
    ensures CoversEpochs(cps + [cp], first, next + |cp.dutyEpochs|, slotsPerEpoch)
  {
    hide IsCheckpoint;
    assert (cps + [cp])[..|cps|] == cps;
  }

  method FrameCheckpoints(lEpoch: nat, rEpoch: nat, finalizedEpoch: nat, slotsPerEpoch: nat)
    returns (r: Result<seq<FrameCheckpoint>, RangeError>)
    ensures r == Failure(LeftAfterRight) <==> lEpoch > rEpoch
    ensures r == Failure(LeftNotAvailable) <==>
      lEpoch <= rEpoch && lEpoch > finalizedEpoch - 2
    ensures r.Success? ==>
      var available := if rEpoch < finalizedEpoch - 2 then rEpoch else finalizedEpoch - 2;
      lEpoch <= available && CoversEpochs(r.value, lEpoch, available + 1, slotsPerEpoch)
    ensures r.Success? ==> forall i :: 0 <= i < |r.value| ==>
      r.value[i].dutyEpochs != [] && IsCheckpoint(r.value[i], r.value[i].dutyEpochs[0], slotsPerEpoch)
    ensures r.Success? ==> forall i :: 0 <= i < |r.value| - 1 ==> |r.value[i].dutyEpochs| == 255
  {
    hide CoversEpochs;
    if lEpoch > rEpoch {
      return Failure(LeftAfterRight);
    }
    var available: int := if finalizedEpoch - CHECKPOINT_SLOT_DELAY_EPOCHS < rEpoch
      then finalizedEpoch - CHECKPOINT_SLOT_DELAY_EPOCHS else rEpoch;
    if lEpoch > available {
      return Failure(LeftNotAvailable);
    }
    var cps: seq<FrameCheckpoint> := [];
    assert CoversEpochs(cps, lEpoch, lEpoch, slotsPerEpoch) by { NoCheckpoints(lEpoch, slotsPerEpoch); }
    var next := lEpoch;
    while next <= available
      invariant lEpoch <= next <= available + 1
      invariant CoversEpochs(cps, lEpoch, next, slotsPerEpoch)
      invariant forall i :: 0 <= i < |cps| ==>
        cps[i].dutyEpochs != [] && IsCheckpoint(cps[i], cps[i].dutyEpochs[0], slotsPerEpoch)
      invariant forall i :: 0 <= i < |cps| - 1 ==> |cps[i].dutyEpochs| == MAX_CHECKPOINT_STEP
      invariant cps != [] && next <= available ==> |cps[|cps| - 1].dutyEpochs| == MAX_CHECKPOINT_STEP
    {
      var n := if available - next + 1 < MAX_CHECKPOINT_STEP then available - next + 1 else MAX_CHECKPOINT_STEP;
      var epochs := seq(n, k requires 0 <= k < n => next + k);
      var cp := FrameCheckpoint((epochs[n - 1] + CHECKPOINT_SLOT_DELAY_EPOCHS) * slotsPerEpoch, epochs);
      AddCheckpoint(cps, cp, lEpoch, next, slotsPerEpoch);
      cps := cps + [cp];
      next := next + n;
    }
    return Success(cps);
  }

  /** The slots looked up for a duty epoch: its own and those of the next one. */
  predicate IsDutySlot(epoch: nat, slotsPerEpoch: nat, slot: int) {
    epoch * slotsPerEpoch <= slot <= (epoch + 2) * slotsPerEpoch - 1
  }

  /** Exactly when every duty slot of every epoch of a checkpoint is in range. */
  lemma {:induction false} DutySlotsInRange(cp: FrameCheckpoint, first: nat, slotsPerEpoch: nat)
    requires IsCheckpoint(cp, first, slotsPerEpoch) && slotsPerEpoch > 0
    ensures (forall e, slot :: e in cp.dutyEpochs && IsDutySlot(e, slotsPerEpoch, slot) ==> InRootsRange(cp.slot, slot))
      <==> (|cp.dutyEpochs| + 1) * slotsPerEpoch <= 8192
  {
    var n := |cp.dutyEpochs|;
    assert cp.slot == first * slotsPerEpoch + (n + 1) * slotsPerEpoch;
    if (n + 1) * slotsPerEpoch <= SLOTS_PER_HISTORICAL_ROOT {
      forall e, slot | e in cp.dutyEpochs && IsDutySlot(e, slotsPerEpoch, slot)
        ensures InRootsRange(cp.slot, slot)
      {
        Grows(first, e, slotsPerEpoch);
        Grows(e + 2, first + n + 1, slotsPerEpoch);
      }
    } else {
      assert cp.dutyEpochs[0] in cp.dutyEpochs;
      Grows(first, first + 2, slotsPerEpoch);
      assert (first + 2) * slotsPerEpoch == first * slotsPerEpoch + 2 * slotsPerEpoch;
      assert IsDutySlot(first, slotsPerEpoch, first * slotsPerEpoch);
      assert !InRootsRange(cp.slot, first * slotsPerEpoch);
    }
  }

  /** With at most 32 slots per epoch no duty lookup of any checkpoint is out of range. */
  lemma {:induction false} NoLookupOutOfRange(cp: FrameCheckpoint, first: nat, slotsPerEpoch: nat, e: nat, slot: int)
    requires IsCheckpoint(cp, first, slotsPerEpoch) && 0 < slotsPerEpoch <= 32
    requires e in cp.dutyEpochs && IsDutySlot(e, slotsPerEpoch, slot)
    ensures InRootsRange(cp.slot, slot)
  {
    Grows(|cp.dutyEpochs| + 1, 256, slotsPerEpoch);
    DutySlotsInRange(cp, first, slotsPerEpoch);
  }

  datatype SlotBlockRoot = SlotBlockRoot(slot: nat, root: MaybeRoot)

  /** The roots of a duty epoch and of the next one. */
  method SelectBlockRoots(marked: seq<MaybeRoot>, dutyEpoch: nat, checkpointSlot: nat, slotsPerEpoch: nat)
    returns (r: Result<(seq<SlotBlockRoot>, seq<SlotBlockRoot>), LookupError>)
    requires |marked| == SLOTS_PER_HISTORICAL_ROOT && slotsPerEpoch > 0
    ensures r.Success? <==>
      forall slot :: IsDutySlot(dutyEpoch, slotsPerEpoch, slot) ==> checkpointSlot - 8192 <= slot < checkpointSlot
    ensures r.Success? ==> |r.value.0| == |r.value.1| == slotsPerEpoch
    ensures r.Success? ==> forall k :: 0 <= k < slotsPerEpoch ==>
      && SelectBlockRootBySlot(marked, checkpointSlot, dutyEpoch * slotsPerEpoch + k) == Success(r.value.0[k].root)
      && r.value.0[k].slot == dutyEpoch * slotsPerEpoch + k
      && SelectBlockRootBySlot(marked, checkpointSlot, (dutyEpoch + 1) * slotsPerEpoch + k)
           == Success(r.value.1[k].root)
      && r.value.1[k].slot == (dutyEpoch + 1) * slotsPerEpoch + k
  {
    var first, last := dutyEpoch * slotsPerEpoch, (dutyEpoch + 2) * slotsPerEpoch - 1;
    assert last + 1 == first + 2 * slotsPerEpoch;
    assert (dutyEpoch + 1) * slotsPerEpoch == first + slotsPerEpoch;
    var roots: seq<SlotBlockRoot> := [];
    for slot := first to last + 1
      invariant |roots| == slot - first
      invariant forall s :: first <= s < slot ==> InRootsRange(checkpointSlot, s)
      invariant forall k :: 0 <= k < |roots| ==>
        && roots[k].slot == first + k
        && SelectBlockRootBySlot(marked, checkpointSlot, first + k) == Success(roots[k].root)
    {
      var root := SelectBlockRootBySlot(marked, checkpointSlot, slot);
      if root.Failure? {
        assert IsDutySlot(dutyEpoch, slotsPerEpoch, slot) && !InRootsRange(checkpointSlot, slot);
        return Failure(SlotOutOfRootsRange);
      }
      roots := roots + [SlotBlockRoot(slot, root.value)];
    }
    forall slot | IsDutySlot(dutyEpoch, slotsPerEpoch, slot) ensures checkpointSlot - 8192 <= slot < checkpointSlot {
      assert InRootsRange(checkpointSlot, slot);
    }
    return Success((roots[..slotsPerEpoch], roots[slotsPerEpoch..]));
  }

  /** The root the proposer duties of an epoch depend on: that of the latest block before the epoch. */
  method GetDependentRoot(
      ghost chain: Chain, marked: seq<MaybeRoot>, checkpointSlot: nat, epoch: nat, slotsPerEpoch: nat,
      latestFromClient: nat -> BlockRoot)
    returns (root: BlockRoot)
    requires chain.Valid() && 0 in chain.blocks && epoch > 0 && slotsPerEpoch > 0
    requires IsMarked(chain, checkpointSlot, marked)
    requires forall s: nat :: latestFromClient(s) == chain.LatestRoot(s)
    ensures root == chain.LatestRoot(epoch * slotsPerEpoch - 1)
  {
    hide SlotAt;
    var dependentSlot := epoch * slotsPerEpoch - 1;
    assert dependentSlot >= 0 by { Grows(1, epoch, slotsPerEpoch); }
    while true
      invariant 0 <= dependentSlot
      invariant chain.LatestRoot(dependentSlot) == chain.LatestRoot(epoch * slotsPerEpoch - 1)
      decreases dependentSlot
    {
      LookupIsExact(chain, checkpointSlot, marked, dependentSlot);
      var selected := SelectBlockRootBySlot(marked, checkpointSlot, dependentSlot);
      if selected.Failure? {
        return latestFromClient(dependentSlot);
      }
      if selected.value.Some? {
        return selected.value.value;
      }
      dependentSlot := dependentSlot - 1;
    }
  }
}
