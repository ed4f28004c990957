/** Timestamps of blocks: a shortcut over stretches without missed slots, and a recursion over the rest. */
module BlockTimestamps {
  import opened Sorting

  /** The time of block `b` if block `a` is of time `ts` and no slot in between was missed. */
  function Ahead(ts: int, a: nat, b: nat, secondsPerSlot: nat): int {
    ts + (b - a) * secondsPerSlot
  }

  lemma {:induction false} NoneAhead(ts: int, a: nat, secondsPerSlot: nat)
    ensures Ahead(ts, a, a, secondsPerSlot) == ts
  {
  }

  /** The ends are as far apart as their numbers say. */
  predicate NothingMissed(blocks: seq<nat>, firstTs: int, lastTs: int, secondsPerSlot: nat)
    requires blocks != []
  {
    Ahead(firstTs, blocks[0], blocks[|blocks| - 1], secondsPerSlot) == lastTs
  }

  function Arithmetic(blocks: seq<nat>, firstTs: int, secondsPerSlot: nat): seq<int> {
    seq(|blocks|, i requires 0 <= i < |blocks| => Ahead(firstTs, blocks[0], blocks[i], secondsPerSlot))
  }

  /** `timestampOf` answers for the execution client. */
  function CalculateTimestamps(
      timestampOf: nat -> int, blocks: seq<nat>, firstTs: int, lastTs: int, secondsPerSlot: nat, batchLimit: int): seq<int>
    decreases |blocks|
  {
    if |blocks| <= 2 then if |blocks| == 1 then [firstTs] else [firstTs, lastTs]
    else if NothingMissed(blocks, firstTs, lastTs, secondsPerSlot) then Arithmetic(blocks, firstTs, secondsPerSlot)
    else if |blocks| - 2 <= batchLimit then
      [firstTs] + Fetched(timestampOf, blocks[1..|blocks| - 1]) + [lastTs]
    else
      var mid := |blocks| / 2;
      var midTs := timestampOf(blocks[mid]);
      var left := CalculateTimestamps(timestampOf, blocks[..mid + 1], firstTs, midTs, secondsPerSlot, batchLimit);
      var right := CalculateTimestamps(timestampOf, blocks[mid..], midTs, lastTs, secondsPerSlot, batchLimit);
      left + if right == [] then [] else right[1..]
  }

  function Fetched(timestampOf: nat -> int, blocks: seq<nat>): seq<int> {
    seq(|blocks|, i requires 0 <= i < |blocks| => timestampOf(blocks[i]))
  }

  ghost predicate Increasing(blocks: seq<nat>) {
    forall i, j :: 0 <= i < j < |blocks| ==> blocks[i] < blocks[j]
  }

  /** Blocks of the chain from `a` to `b` are each at least one slot after the one before. */
  ghost predicate SlotsApart(timestampOf: nat -> int, a: nat, b: nat, secondsPerSlot: nat) {
    forall n: nat :: a <= n < b ==> timestampOf(n + 1) >= timestampOf(n) + secondsPerSlot
  }

  lemma {:induction false} AtLeastSlots(timestampOf: nat -> int, a: nat, b: nat, secondsPerSlot: nat)
    requires a <= b && SlotsApart(timestampOf, a, b, secondsPerSlot)
    ensures timestampOf(b) >= Ahead(timestampOf(a), a, b, secondsPerSlot)
    decreases b - a
  {
    if a < b {
      AtLeastSlots(timestampOf, a, b - 1, secondsPerSlot);
      assert timestampOf(b - 1 + 1) >= timestampOf(b - 1) + secondsPerSlot;
      assert (b - a) * secondsPerSlot == (b - 1 - a) * secondsPerSlot + secondsPerSlot;
    }
  }

  lemma {:induction false} NarrowerIsApart(
      timestampOf: nat -> int, a: nat, x: nat, y: nat, b: nat, secondsPerSlot: nat)
    requires a <= x && y <= b && SlotsApart(timestampOf, a, b, secondsPerSlot)
    ensures SlotsApart(timestampOf, x, y, secondsPerSlot)
  {
  }

  /** When the ends are exactly as far apart as without missed slots, so is everything between them. */
  lemma {:induction false} NoMissedSlots(timestampOf: nat -> int, a: nat, n: nat, b: nat, secondsPerSlot: nat)
    requires a <= n <= b && SlotsApart(timestampOf, a, b, secondsPerSlot)
    requires Ahead(timestampOf(a), a, b, secondsPerSlot) == timestampOf(b)
    ensures timestampOf(n) == Ahead(timestampOf(a), a, n, secondsPerSlot)
  {
    AtLeastSlots(timestampOf, a, n, secondsPerSlot);
    AtLeastSlots(timestampOf, n, b, secondsPerSlot);
    assert (b - a) * secondsPerSlot == (b - n) * secondsPerSlot + (n - a) * secondsPerSlot;
  }

  /** Whenever two blocks from `a` to `b` are as far apart as without missed slots, so is everything between them. */
  ghost predicate EvenStretches(timestampOf: nat -> int, a: nat, b: nat, secondsPerSlot: nat) {
    forall x, n, y :: a <= x <= n <= y <= b && Ahead(timestampOf(x), x, y, secondsPerSlot) == timestampOf(y) ==>
      timestampOf(n) == Ahead(timestampOf(x), x, n, secondsPerSlot)
  }

  /** A chain with at most one block in a slot has no other stretches. */
  lemma {:induction false} SlotsMakeEven(timestampOf: nat -> int, a: nat, b: nat, secondsPerSlot: nat)
    requires SlotsApart(timestampOf, a, b, secondsPerSlot)
    ensures EvenStretches(timestampOf, a, b, secondsPerSlot)
  {
    hide Ahead, SlotsApart;
    forall x: nat, n: nat, y: nat |
      a <= x <= n <= y <= b && Ahead(timestampOf(x), x, y, secondsPerSlot) == timestampOf(y)
      ensures timestampOf(n) == Ahead(timestampOf(x), x, n, secondsPerSlot)
    {
      NarrowerIsApart(timestampOf, a, x, y, b, secondsPerSlot);
      NoMissedSlots(timestampOf, x, n, y, secondsPerSlot);
    }
  }

  /** The recursion gives every requested block its true timestamp. */
  ghost predicate IsRightFor(timestampOf: nat -> int, blocks: seq<nat>, secondsPerSlot: nat, batchLimit: int)
    requires blocks != []
  {
    var firstTs, lastTs := timestampOf(blocks[0]), timestampOf(blocks[|blocks| - 1]);
    CalculateTimestamps(timestampOf, blocks, firstTs, lastTs, secondsPerSlot, batchLimit) == Fetched(timestampOf, blocks)
  }

  lemma {:induction false} TimestampsAreTrue(
      timestampOf: nat -> int, blocks: seq<nat>, secondsPerSlot: nat, batchLimit: int)
    requires blocks != [] && Increasing(blocks)
    requires EvenStretches(timestampOf, blocks[0], blocks[|blocks| - 1], secondsPerSlot)
    ensures IsRightFor(timestampOf, blocks, secondsPerSlot, batchLimit)
    decreases |blocks|
  {
    hide NothingMissed, Arithmetic, EvenStretches, Increasing, Ahead;
    if |blocks| > 2 {
      if NothingMissed(blocks, timestampOf(blocks[0]), timestampOf(blocks[|blocks| - 1]), secondsPerSlot) {
        ShortcutIsTrue(timestampOf, blocks, secondsPerSlot);
      } else if |blocks| - 2 > batchLimit {
        Halves(timestampOf, blocks, secondsPerSlot, batchLimit);
      }
    }
  }

  /** Some blocks from `a` to `b`, in order. */
  ghost predicate IsRequest(blocks: seq<nat>, a: nat, b: nat) {
    blocks != [] && Increasing(blocks) && a <= blocks[0] && blocks[|blocks| - 1] <= b
  }

  /** The recursion is right for every request exactly when the shortcut has no stretch to be wrong on. */
  lemma {:induction false} ShortcutCondition(
      timestampOf: nat -> int, a: nat, b: nat, secondsPerSlot: nat, batchLimit: int)
    ensures (forall blocks :: IsRequest(blocks, a, b) ==> IsRightFor(timestampOf, blocks, secondsPerSlot, batchLimit))
      <==> EvenStretches(timestampOf, a, b, secondsPerSlot)
  {
    hide CalculateTimestamps, Fetched, Ahead;
    if EvenStretches(timestampOf, a, b, secondsPerSlot) {
      forall blocks | IsRequest(blocks, a, b)
        ensures IsRightFor(timestampOf, blocks, secondsPerSlot, batchLimit)
      {
        TimestampsAreTrue(timestampOf, blocks, secondsPerSlot, batchLimit);
      }
    }
    if forall blocks :: IsRequest(blocks, a, b) ==> IsRightFor(timestampOf, blocks, secondsPerSlot, batchLimit) {
      forall x: nat, n: nat, y: nat |
        a <= x <= n <= y <= b && Ahead(timestampOf(x), x, y, secondsPerSlot) == timestampOf(y)
        ensures timestampOf(n) == Ahead(timestampOf(x), x, n, secondsPerSlot)
      {
        NoneAhead(timestampOf(x), x, secondsPerSlot);
        if x < n < y {
          assert IsRequest([x, n, y], a, b);
          RightForThree(timestampOf, x, n, y, secondsPerSlot, batchLimit);
        }
      }
    }
  }

  lemma {:induction false} RightForThree(
      timestampOf: nat -> int, x: nat, n: nat, y: nat, secondsPerSlot: nat, batchLimit: int)
    requires x < n < y && Ahead(timestampOf(x), x, y, secondsPerSlot) == timestampOf(y)
    requires IsRightFor(timestampOf, [x, n, y], secondsPerSlot, batchLimit)
    ensures timestampOf(n) == Ahead(timestampOf(x), x, n, secondsPerSlot)
  {
    var blocks := [x, n, y];
    assert CalculateTimestamps(timestampOf, blocks, timestampOf(x), timestampOf(y), secondsPerSlot, batchLimit)
      == Arithmetic(blocks, timestampOf(x), secondsPerSlot);
    assert Arithmetic(blocks, timestampOf(x), secondsPerSlot)[1] == Fetched(timestampOf, blocks)[1];
  }

  lemma {:induction false} ShortcutIsTrue(timestampOf: nat -> int, blocks: seq<nat>, secondsPerSlot: nat)
    requires blocks != [] && Increasing(blocks)
    requires EvenStretches(timestampOf, blocks[0], blocks[|blocks| - 1], secondsPerSlot)
    requires NothingMissed(blocks, timestampOf(blocks[0]), timestampOf(blocks[|blocks| - 1]), secondsPerSlot)
    ensures Arithmetic(blocks, timestampOf(blocks[0]), secondsPerSlot) == Fetched(timestampOf, blocks)
  {
    hide Ahead;
    var first, last := blocks[0], blocks[|blocks| - 1];
    assert Ahead(timestampOf(first), first, last, secondsPerSlot) == timestampOf(last);
    forall i | 0 <= i < |blocks|
      ensures timestampOf(blocks[i]) == Ahead(timestampOf(first), first, blocks[i], secondsPerSlot)
    {
      assert i == 0 || blocks[0] < blocks[i];
      assert i == |blocks| - 1 || blocks[i] < last;
    }
  }

  lemma {:induction false} Halves(
      timestampOf: nat -> int, blocks: seq<nat>, secondsPerSlot: nat, batchLimit: int)
    requires |blocks| > 2 && Increasing(blocks)
    requires EvenStretches(timestampOf, blocks[0], blocks[|blocks| - 1], secondsPerSlot)
    ensures var mid, firstTs, lastTs := |blocks| / 2, timestampOf(blocks[0]), timestampOf(blocks[|blocks| - 1]);
      var midTs := timestampOf(blocks[mid]);
      var left := CalculateTimestamps(timestampOf, blocks[..mid + 1], firstTs, midTs, secondsPerSlot, batchLimit);
      var right := CalculateTimestamps(timestampOf, blocks[mid..], midTs, lastTs, secondsPerSlot, batchLimit);
      right != [] && left + right[1..] == Fetched(timestampOf, blocks)
    decreases |blocks|, 0
  {
    hide CalculateTimestamps, EvenStretches, Ahead;
    var mid := |blocks| / 2;
    assert blocks[mid] < blocks[|blocks| - 1] && blocks[0] < blocks[mid];
    NarrowerIsEven(timestampOf, blocks[0], blocks[mid], blocks[mid], blocks[|blocks| - 1], secondsPerSlot);
    TimestampsAreTrue(timestampOf, blocks[..mid + 1], secondsPerSlot, batchLimit);
    TimestampsAreTrue(timestampOf, blocks[mid..], secondsPerSlot, batchLimit);
  }

  lemma {:induction false} NarrowerIsEven(
      timestampOf: nat -> int, a: nat, b: nat, c: nat, d: nat, secondsPerSlot: nat)
    requires a <= b && c <= d && a <= c && b <= d && EvenStretches(timestampOf, a, d, secondsPerSlot)
    ensures EvenStretches(timestampOf, a, b, secondsPerSlot) && EvenStretches(timestampOf, c, d, secondsPerSlot)
  {
  }

  /** Where two blocks are less than a slot apart the shortcut can be wrong. */
  lemma {:induction false} ShortcutNeedsSlots()
    ensures var timestampOf := (n: nat) => if n == 0 then 0 else if n == 1 then 6 else 12 * n;
      CalculateTimestamps(timestampOf, [0, 1, 2], 0, 24, 12, 20) != Fetched(timestampOf, [0, 1, 2])
  {
    var timestampOf := (n: nat) => if n == 0 then 0 else if n == 1 then 6 else 12 * n;
    assert CalculateTimestamps(timestampOf, [0, 1, 2], 0, 24, 12, 20)[1] == 12;
    assert Fetched(timestampOf, [0, 1, 2])[1] == 6;
  }

  // ----- The entry point -----

  function AtMost(): (nat, nat) -> bool {
    (a: nat, b: nat) => a <= b
  }

  method SortedBlocks(blockNumbers: set<nat>) returns (blocks: seq<nat>)
    ensures Increasing(blocks) && forall b :: b in blocks <==> b in blockNumbers
  {
    var unsorted: seq<nat>, left := [], blockNumbers;
    while left != {}
      invariant left <= blockNumbers
      invariant forall b :: b in unsorted <==> b in blockNumbers && b !in left
      invariant DistinctBy(unsorted, (b: nat) => b)
      decreases |left|
    {
      var b :| b in left;
      left := left - {b};
      unsorted := unsorted + [b];
    }
    blocks := Sort(unsorted, AtMost());
    SortSorts(unsorted, AtMost());
    SortKeepsDistinct(unsorted, AtMost(), (b: nat) => b);
    forall i, j | 0 <= i < j < |blocks| ensures blocks[i] < blocks[j] {
      assert AtMost()(blocks[i], blocks[j]);
    }
  }

  method GetBlockTimestamps(
      timestampOf: nat -> int, blockNumbers: set<nat>, secondsPerSlot: nat, batchLimit: int)
    returns (timestamps: map<nat, int>)
    requires forall a, b :: a in blockNumbers && b in blockNumbers ==> EvenStretches(timestampOf, a, b, secondsPerSlot)
    ensures timestamps.Keys == blockNumbers
    ensures forall b :: b in blockNumbers ==> timestamps[b] == timestampOf(b)
  {
    hide CalculateTimestamps, EvenStretches;
    if blockNumbers == {} {
      return map[];
    }
    var blocks := SortedBlocks(blockNumbers);
    if |blocks| == 1 {
      return map[blocks[0] := timestampOf(blocks[0])];
    }
    var first, last := blocks[0], blocks[|blocks| - 1];
    var values := CalculateTimestamps(
      timestampOf, blocks, timestampOf(first), timestampOf(last), secondsPerSlot, batchLimit);
    TimestampsAreTrue(timestampOf, blocks, secondsPerSlot, batchLimit);
    timestamps := map[];
    for n := 0 to |blocks|
      invariant timestamps.Keys == set b | b in blocks[..n]
      invariant forall b :: b in timestamps ==> timestamps[b] == timestampOf(b)
    {
      timestamps := timestamps[blocks[n] := values[n]];
    }
    assert blocks[..|blocks|] == blocks;
  }
}
