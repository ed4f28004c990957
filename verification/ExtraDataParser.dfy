/** Reading extra data by its documented layout, and the round trip through the writer. */
module ExtraDataParser {
  import opened Wrappers
  import opened Sorting
  import opened Encoding
  import opened ExtraData

  datatype Item = Item(index: nat, itemType: nat, payload: ItemPayload)

  const HEADER := 16

  /** | 3 bytes index | 2 bytes type | 3 bytes module | 8 bytes count | 8 bytes each id | 16 bytes each value |. */
  function ParseItem(bytes: Bytes): (r: Option<(Item, Bytes)>)
    ensures r.Some? ==> |r.value.1| < |bytes|
  {
    if |bytes| < HEADER then None
    else
      var count := FromBytes(bytes[8..16]);
      var idsEnd, valuesEnd := 16 + count * 8, 16 + count * 8 + count * 16;
      if |bytes| < valuesEnd then None
      else
        var payload := ItemPayload(FromBytes(bytes[5..8]),
          ReadAll(bytes[16..idsEnd], count, 8),
          ReadAll(bytes[idsEnd..valuesEnd], count, 16));
        Some((Item(FromBytes(bytes[0..3]), FromBytes(bytes[3..5]), payload), bytes[valuesEnd..]))
  }

  function ParseBody(bytes: Bytes): Option<seq<Item>>
    decreases |bytes|
  {
    if bytes == [] then Some([])
    else
      match ParseItem(bytes)
      case None => None
      case Some((item, rest)) =>
        match ParseBody(rest)
        case None => None
        case Some(items) => Some([item] + items)
  }

  /** Follows the chain: each transaction must hash to what the one before it announced, and the last one ends it. */
  function ParseChain(dataHash: Bytes, txs: seq<Bytes>, keccak: Bytes -> Hash): Option<seq<Item>>
    decreases |txs|
  {
    if txs == [] then if dataHash == seq(32, _ => 0) then Some([]) else None
    else if keccak(txs[0]) != dataHash || |txs[0]| < 32 then None
    else
      match ParseBody(txs[0][32..])
      case None => None
      case Some(items) =>
        match ParseChain(txs[0][..32], txs[1..], keccak)
        case None => None
        case Some(rest) => Some(items + rest)
  }

  // ----- Round trip -----

  lemma {:induction false} ItemReadsBack(index: nat, p: ItemPayload, rest: Bytes)
    requires p.Valid() && ItemFits(index, p)
    ensures ParseItem(ItemDigits(index, p) + rest) == Some((Item(index, EXTRA_DATA_TYPE_EXITED_VALIDATORS, p), rest))
  {
    hide Digits, AllDigits, FromBytes, ReadAll, Pow256;
    var bytes := ItemDigits(index, p) + rest;
    var count := |p.nodeOperatorIds|;
    var ids, values := AllDigits(p.nodeOperatorIds, NODE_OPERATOR_ID), AllDigits(p.value, NODE_OPERATOR_VALUE);
    assert bytes[0..3] == Digits(index, ITEM_INDEX);
    assert bytes[3..5] == Digits(EXTRA_DATA_TYPE_EXITED_VALIDATORS, ITEM_TYPE);
    assert bytes[5..8] == Digits(p.moduleId, MODULE_ID);
    assert bytes[8..16] == Digits(count, NODE_OPS_COUNT);
    assert bytes[16..16 + |ids|] == ids;
    assert bytes[16 + |ids|..16 + |ids| + |values|] == values;
    assert bytes[16 + |ids| + |values|..] == rest;
    TypeFits();
    FromDigits(index, ITEM_INDEX);
    FromDigits(EXTRA_DATA_TYPE_EXITED_VALIDATORS, ITEM_TYPE);
    FromDigits(p.moduleId, MODULE_ID);
    FromDigits(count, NODE_OPS_COUNT);
    ReadAllDigits(p.nodeOperatorIds, NODE_OPERATOR_ID);
    ReadAllDigits(p.value, NODE_OPERATOR_VALUE);
  }

  lemma {:induction false} TypeFits()
    ensures EXTRA_DATA_TYPE_EXITED_VALIDATORS < Pow256(ITEM_TYPE)
  {
    assert Pow256(ITEM_TYPE) == 65536;
  }

  /** Nothing but the written item reads as that item. */
  lemma {:induction false} ItemWritesBack(bytes: Bytes, index: nat, p: ItemPayload, rest: Bytes)
    requires ParseItem(bytes) == Some((Item(index, EXTRA_DATA_TYPE_EXITED_VALIDATORS, p), rest))
    ensures p.Valid() && ItemFits(index, p) && bytes == ItemDigits(index, p) + rest
  {
    hide Digits, AllDigits, FromBytes, ReadAll, Pow256;
    var count := FromBytes(bytes[8..16]);
    var idsEnd, valuesEnd := 16 + count * NODE_OPERATOR_ID, 16 + count * NODE_OPERATOR_ID + count * NODE_OPERATOR_VALUE;
    DigitsOfValue(bytes[0..3]);
    DigitsOfValue(bytes[3..5]);
    DigitsOfValue(bytes[5..8]);
    DigitsOfValue(bytes[8..16]);
    AllDigitsOfRead(bytes[16..idsEnd], count, NODE_OPERATOR_ID);
    AllDigitsOfRead(bytes[idsEnd..valuesEnd], count, NODE_OPERATOR_VALUE);
    assert bytes == bytes[0..3] + bytes[3..5] + bytes[5..8] + bytes[8..16] + bytes[16..idsEnd]
      + bytes[idsEnd..valuesEnd] + bytes[valuesEnd..];
  }

  /** The items that the payloads should read back as. */
  function Items(payloads: seq<ItemPayload>, first: nat): seq<Item> {
    seq(|payloads|, k requires 0 <= k < |payloads| => Item(first + k, EXTRA_DATA_TYPE_EXITED_VALIDATORS, payloads[k]))
  }

  ghost predicate AllItemsFit(payloads: seq<ItemPayload>, first: nat) {
    forall k :: 0 <= k < |payloads| ==> payloads[k].Valid() && ItemFits(first + k, payloads[k])
  }

  lemma {:induction false} BodyReadsBack(payloads: seq<ItemPayload>, first: nat)
    requires AllItemsFit(payloads, first)
    ensures ParseBody(TxDigits(payloads, first)) == Some(Items(payloads, first))
    decreases |payloads|
  {
    hide ItemDigits, ItemFits, ParseItem;
    if payloads == [] {
      assert Items(payloads, first) == [];
    } else {
      var rest := TxDigits(payloads[1..], first + 1);
      ItemReadsBack(first, payloads[0], rest);
      BodyReadsBack(payloads[1..], first + 1);
      assert |ItemDigits(first, payloads[0])| > 0;
      assert Items(payloads, first) ==
        [Item(first, EXTRA_DATA_TYPE_EXITED_VALIDATORS, payloads[0])] + Items(payloads[1..], first + 1);
    }
  }

  lemma {:induction false} BodyWritesBack(bytes: Bytes, payloads: seq<ItemPayload>, first: nat)
    requires ParseBody(bytes) == Some(Items(payloads, first))
    ensures AllItemsFit(payloads, first) && bytes == TxDigits(payloads, first)
    decreases |payloads|
  {
    hide ItemDigits, ItemFits, ParseItem, ItemPayload.Valid;
    if bytes == [] {
      assert payloads == [] by { assert |Items(payloads, first)| == 0; }
    } else {
      var (item, rest) := ParseItem(bytes).value;
      var items := ParseBody(rest).value;
      assert Items(payloads, first) == [item] + items;
      assert item == Items(payloads, first)[0] && items == Items(payloads, first)[1..];
      assert items == Items(payloads[1..], first + 1);
      ItemWritesBack(bytes, first, payloads[0], rest);
      BodyWritesBack(rest, payloads[1..], first + 1);
    }
  }

  /** A body reads as the numbered payloads if and only if they fit and it is what the writer makes of them. */
  lemma {:induction false} BodyIsCanonical(bytes: Bytes, payloads: seq<ItemPayload>, first: nat)
    ensures ParseBody(bytes) == Some(Items(payloads, first)) <==>
      AllItemsFit(payloads, first) && bytes == TxDigits(payloads, first)
  {
    hide ParseBody, AllItemsFit, TxDigits, Items;
    if ParseBody(bytes) == Some(Items(payloads, first)) {
      BodyWritesBack(bytes, payloads, first);
    }
    if AllItemsFit(payloads, first) {
      BodyReadsBack(payloads, first);
    }
  }

  lemma {:induction false} FitsSplit(payloads: seq<ItemPayload>, first: nat, n: nat)
    requires n <= |payloads| && AllItemsFit(payloads, first)
    ensures AllItemsFit(payloads[..n], first) && AllItemsFit(payloads[n..], first + n)
    ensures Items(payloads, first) == Items(payloads[..n], first) + Items(payloads[n..], first + n)
  {
  }

  lemma {:induction false} ChainReadsBack(payloads: seq<ItemPayload>, max: nat, first: nat, keccak: Bytes -> Hash)
    requires max > 0 && AllItemsFit(payloads, first)
    ensures var (dataHash, txs) := Chained(TxBodies(payloads, max, first), keccak);
      ParseChain(dataHash, txs, keccak) == Some(Items(payloads, first))
    decreases |payloads|
  {
    hide TxDigits, ParseBody, AllItemsFit;
    if payloads == [] {
      assert Items(payloads, first) == [];
    } else {
      var n := BatchEnd(|payloads|, max);
      FitsSplit(payloads, first, n);
      BodyReadsBack(payloads[..n], first);
      ChainReadsBack(payloads[n..], max, first + n, keccak);
      var bodies := TxBodies(payloads, max, first);
      var (next, rest) := Chained(bodies[1..], keccak);
      assert bodies[1..] == TxBodies(payloads[n..], max, first + n);
      assert ([next + bodies[0]] + rest)[1..] == rest;
    }
  }

  /** No transaction holds more than `max` items. */
  lemma {:induction false} TransactionSizes(payloads: seq<ItemPayload>, max: nat, first: nat)
    requires max > 0 && AllItemsFit(payloads, first)
    ensures forall t :: 0 <= t < |TxBodies(payloads, max, first)| ==>
      var items := ParseBody(TxBodies(payloads, max, first)[t]);
      items.Some? && 0 < |items.value| <= max
      && (t < |TxBodies(payloads, max, first)| - 1 ==> |items.value| == max)
    decreases |payloads|
  {
    hide TxDigits, ParseBody, AllItemsFit;
    if payloads != [] {
      var n := BatchEnd(|payloads|, max);
      FitsSplit(payloads, first, n);
      BodyReadsBack(payloads[..n], first);
      TransactionSizes(payloads[n..], max, first + n);
      var bodies, rest := TxBodies(payloads, max, first), TxBodies(payloads[n..], max, first + n);
      assert bodies == [TxDigits(payloads[..n], first)] + rest;
      forall t | 0 <= t < |bodies|
        ensures ParseBody(bodies[t]).Some? && 0 < |ParseBody(bodies[t]).value| <= max
          && (t < |bodies| - 1 ==> |ParseBody(bodies[t]).value| == max)
      {
        if t > 0 { assert bodies[t] == rest[t - 1]; }
      }
    }
  }

  /** The operators of the items, in the order in which they are read. */
  function PayloadsOf(items: seq<Item>): seq<ItemPayload> {
    seq(|items|, k requires 0 <= k < |items| => items[k].payload)
  }

  /**
   Extra data round-trips. Whatever `collect` returns parses, by the documented layout, to items numbered 0, 1, 2, …
   across the transactions, whose operators are exactly those of the input in strictly increasing order.
   */
  lemma {:induction false} RoundTrip(
      validators: seq<Entry>, payloads: seq<ItemPayload>, maxItems: nat, maxNo: nat, keccak: Bytes -> Hash)
    requires maxItems > 0 && maxNo > 0 && IsDict(validators)
    requires WellCut(payloads, maxNo) && EntriesOf(payloads) == Sort(validators, Order())
    requires ItemsFit(payloads, |payloads|)
    ensures var (dataHash, txs) := Chained(TxBodies(payloads, maxItems, 0), keccak);
      var items := ParseChain(dataHash, txs, keccak);
      && items.Some? && PayloadsOf(items.value) == payloads
      && (forall k :: 0 <= k < |items.value| ==> items.value[k].index == k && items.value[k].itemType == 2)
      && multiset(EntriesOf(payloads)) == multiset(validators) && StrictlyIncreasing(EntriesOf(payloads))
  {
    hide ItemFits, Chained, TxBodies, ParseChain, StrictlyIncreasing, EntriesOf;
    SortedStrictly(validators);
    ChainReadsBack(payloads, maxItems, 0, keccak);
    assert PayloadsOf(Items(payloads, 0)) == payloads;
  }

  // ----- What the data hash commits to -----

  /** The transactions form a chain from the hash. */
  ghost predicate IsChain(dataHash: Bytes, txs: seq<Bytes>, keccak: Bytes -> Hash)
    decreases |txs|
  {
    if txs == [] then dataHash == seq(32, _ => 0)
    else keccak(txs[0]) == dataHash && |txs[0]| >= 32 && IsChain(txs[0][..32], txs[1..], keccak)
  }

  ghost predicate Collision(keccak: Bytes -> Hash) {
    exists x, y :: x != y && keccak(x) == keccak(y)
  }

  ghost predicate HashesToZero(keccak: Bytes -> Hash) {
    exists x :: keccak(x) == ZERO_HASH
  }

  /** Two different lists of transactions under one data hash exhibit a collision, or a preimage of zero. */
  lemma {:induction false} HashCommits(dataHash: Bytes, a: seq<Bytes>, b: seq<Bytes>, keccak: Bytes -> Hash)
    requires IsChain(dataHash, a, keccak) && IsChain(dataHash, b, keccak)
    ensures a == b || Collision(keccak) || HashesToZero(keccak)
    decreases |a|
  {
    if a == [] && b == [] {
    } else if a == [] {
      assert keccak(b[0]) == ZERO_HASH;
    } else if b == [] {
      assert keccak(a[0]) == ZERO_HASH;
    } else if a[0] == b[0] {
      HashCommits(a[0][..32], a[1..], b[1..], keccak);
      assert a == [a[0]] + a[1..] && b == [b[0]] + b[1..];
    } else {
      assert keccak(a[0]) == keccak(b[0]);
    }
  }

  /** What the writer returns is such a chain. */
  lemma {:induction false} ChainedIsChain(txs: seq<Bytes>, keccak: Bytes -> Hash)
    ensures var (dataHash, chained) := Chained(txs, keccak); IsChain(dataHash, chained, keccak)
  {
    if txs != [] {
      ChainedIsChain(txs[1..], keccak);
      var (next, rest) := Chained(txs[1..], keccak);
      assert ([next + txs[0]] + rest)[1..] == rest;
    }
  }
}
