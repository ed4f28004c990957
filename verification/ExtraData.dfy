/** Extra data of the third phase: exited validators as items, items in transactions, transactions chained by hashes. */
module ExtraData {
  import opened Wrappers
  import opened Sorting
  import opened Encoding

  /** One entry of the input: a node operator of a module, and its number of exited validators. */
  datatype Entry = Entry(moduleId: nat, noId: nat, value: nat)

  datatype ItemPayload = ItemPayload(moduleId: nat, nodeOperatorIds: seq<nat>, value: seq<nat>) {
    predicate Valid() {
      |nodeOperatorIds| == |value|
    }

    function Entries(): seq<Entry>
      requires Valid()
    {
      seq(|value|, i requires 0 <= i < |value| => Entry(moduleId, nodeOperatorIds[i], value[i]))
    }
  }

  /** `sorted` by the pair of module and operator. */
  function Order(): (Entry, Entry) -> bool {
    (a: Entry, b: Entry) => a.moduleId < b.moduleId || (a.moduleId == b.moduleId && a.noId <= b.noId)
  }

  predicate StrictlyIncreasing(entries: seq<Entry>) {
    forall i, j :: 0 <= i < j < |entries| ==>
      entries[i].moduleId < entries[j].moduleId
      || (entries[i].moduleId == entries[j].moduleId && entries[i].noId < entries[j].noId)
  }

  /** The keys of a dictionary are distinct. */
  predicate IsDict(validators: seq<Entry>) {
    forall i, j :: 0 <= i < j < |validators| ==>
      validators[i].moduleId != validators[j].moduleId || validators[i].noId != validators[j].noId
  }

  function KeyOf(): Entry -> (nat, nat) {
    (e: Entry) => (e.moduleId, e.noId)
  }

  lemma {:induction false} SortedStrictly(validators: seq<Entry>)
    requires IsDict(validators)
    ensures StrictlyIncreasing(Sort(validators, Order()))
  {
    SortSorts(validators, Order());
    assert DistinctBy(validators, KeyOf());
    SortKeepsDistinct(validators, Order(), KeyOf());
    var sorted := Sort(validators, Order());
    forall i, j | 0 <= i < j < |sorted|
      ensures sorted[i].moduleId < sorted[j].moduleId
        || (sorted[i].moduleId == sorted[j].moduleId && sorted[i].noId < sorted[j].noId)
    {
      assert Order()(sorted[i], sorted[j]) && KeyOf()(sorted[i]) != KeyOf()(sorted[j]);
    }
  }

  // ----- Payloads -----

  function EntriesOf(payloads: seq<ItemPayload>): seq<Entry>
    requires forall k :: 0 <= k < |payloads| ==> payloads[k].Valid()
  {
    if payloads == [] then []
    else
      assert payloads[|payloads| - 1].Valid();
      EntriesOf(payloads[..|payloads| - 1]) + payloads[|payloads| - 1].Entries()
  }

  lemma {:induction false} EntryOfPayload(payloads: seq<ItemPayload>, k: nat, i: nat)
    requires forall l :: 0 <= l < |payloads| ==> payloads[l].Valid()
    requires k < |payloads| && payloads[k].Valid() && i < |payloads[k].value|
    ensures Entry(payloads[k].moduleId, payloads[k].nodeOperatorIds[i], payloads[k].value[i]) in EntriesOf(payloads)
    decreases |payloads|
  {
    var last := payloads[|payloads| - 1];
    if k == |payloads| - 1 {
      assert last.Entries()[i] in last.Entries();
    } else {
      EntryOfPayload(payloads[..|payloads| - 1], k, i);
    }
  }

  /** Every operator and value of a payload is an entry of the input. */
  lemma {:induction false} PayloadsHoldInput(validators: seq<Entry>, payloads: seq<ItemPayload>, k: nat, i: nat)
    requires forall l :: 0 <= l < |payloads| ==> payloads[l].Valid()
    requires EntriesOf(payloads) == Sort(validators, Order())
    requires k < |payloads| && payloads[k].Valid() && i < |payloads[k].value|
    ensures Entry(payloads[k].moduleId, payloads[k].nodeOperatorIds[i], payloads[k].value[i]) in validators
  {
    EntryOfPayload(payloads, k, i);
    SortSorts(validators, Order());
    assert Entry(payloads[k].moduleId, payloads[k].nodeOperatorIds[i], payloads[k].value[i]) in multiset(validators);
  }

  /** Payloads hold up to `max` operators of one module; only a module's last payload is not full. */
  ghost predicate WellCut(payloads: seq<ItemPayload>, max: nat) {
    && (forall k :: 0 <= k < |payloads| ==> payloads[k].Valid() && 0 < |payloads[k].value| <= max)
    && forall k :: 0 <= k < |payloads| - 1 && payloads[k].moduleId == payloads[k + 1].moduleId ==>
         |payloads[k].value| == max
  }

  /** The payload of the operators from `start` to `stop`, all of one module. */
  function PayloadOf(sorted: seq<Entry>, start: nat, stop: nat): (p: ItemPayload)
    requires start < stop <= |sorted|
    requires forall k :: start <= k < stop ==> sorted[k].moduleId == sorted[start].moduleId
    ensures p.Valid() && p.Entries() == sorted[start..stop]
  {
    var run := sorted[start..stop];
    var p := ItemPayload(sorted[start].moduleId,
      seq<nat>(|run|, k requires 0 <= k < |run| => run[k].noId),
      seq<nat>(|run|, k requires 0 <= k < |run| => run[k].value));
    assert forall k :: 0 <= k < |run| ==> p.Entries()[k] == run[k];
    p
  }

  /** What the inner loop keeps: everything before `start` is in payloads, and an unfinished module's last one is full. */
  ghost predicate CutUpTo(sorted: seq<Entry>, payloads: seq<ItemPayload>, max: nat, start: nat)
    requires start <= |sorted|
  {
    && WellCut(payloads, max) && EntriesOf(payloads) == sorted[..start]
    && (payloads != [] && start < |sorted| && payloads[|payloads| - 1].moduleId == sorted[start].moduleId ==>
          |payloads[|payloads| - 1].value| == max)
  }

  lemma {:induction false} CutOne(sorted: seq<Entry>, payloads: seq<ItemPayload>, max: nat, start: nat, stop: nat)
    requires start < stop <= |sorted| && stop - start <= max && CutUpTo(sorted, payloads, max, start)
    requires forall k :: start <= k < stop ==> sorted[k].moduleId == sorted[start].moduleId
    requires stop < |sorted| && sorted[stop].moduleId == sorted[start].moduleId ==> stop - start == max
    ensures CutUpTo(sorted, payloads + [PayloadOf(sorted, start, stop)], max, stop)
  {
    var p := PayloadOf(sorted, start, stop);
    var more := payloads + [p];
    assert |p.Entries()| == stop - start;
    assert more[..|more| - 1] == payloads;
    assert sorted[..stop] == sorted[..start] + sorted[start..stop];
  }

  method BuildValidatorsPayloads(validators: seq<Entry>, maxNoInPayloadCount: nat) returns (payloads: seq<ItemPayload>)
    requires maxNoInPayloadCount > 0
    ensures WellCut(payloads, maxNoInPayloadCount)
    ensures EntriesOf(payloads) == Sort(validators, Order())
  {
    hide WellCut, EntriesOf;
    var sorted := Sort(validators, Order());
    payloads := [];
    assert CutUpTo(sorted, payloads, maxNoInPayloadCount, 0) by { NothingCut(sorted, maxNoInPayloadCount); }
    var i := 0;
    while i < |sorted|
      invariant i <= |sorted| && CutUpTo(sorted, payloads, maxNoInPayloadCount, i)
    {
      var end := i + 1;
      while end < |sorted| && sorted[end].moduleId == sorted[i].moduleId
        invariant i < end <= |sorted|
        invariant forall k :: i <= k < end ==> sorted[k].moduleId == sorted[i].moduleId
      {
        end := end + 1;
      }
      var start := i;
      while start < end
        invariant i <= start <= end && CutUpTo(sorted, payloads, maxNoInPayloadCount, start)
      {
        var stop := if start + maxNoInPayloadCount < end then start + maxNoInPayloadCount else end;
        CutOne(sorted, payloads, maxNoInPayloadCount, start, stop);
        payloads := payloads + [PayloadOf(sorted, start, stop)];
        start := stop;
      }
      i := end;
    }
    assert sorted[..|sorted|] == sorted;
  }

  lemma {:induction false} NothingCut(sorted: seq<Entry>, max: nat)
    ensures CutUpTo(sorted, [], max, 0)
  {
  }

  // ----- Items and transactions -----

  const ITEM_INDEX := 3
  const ITEM_TYPE := 2
  const MODULE_ID := 3
  const NODE_OPS_COUNT := 8
  const NODE_OPERATOR_ID := 8
  const NODE_OPERATOR_VALUE := 16
  const EXTRA_DATA_TYPE_EXITED_VALIDATORS := 2

  predicate AllFit(numbers: seq<nat>, length: nat) {
    forall i :: 0 <= i < |numbers| ==> numbers[i] < Pow256(length)
  }

  /** Every field of the item fits in its bytes. */
  predicate ItemFits(index: nat, p: ItemPayload) {
    && index < Pow256(ITEM_INDEX) && p.moduleId < Pow256(MODULE_ID)
    && |p.nodeOperatorIds| < Pow256(NODE_OPS_COUNT)
    && AllFit(p.nodeOperatorIds, NODE_OPERATOR_ID) && AllFit(p.value, NODE_OPERATOR_VALUE)
  }

  function ItemDigits(index: nat, p: ItemPayload): Bytes {
    Digits(index, ITEM_INDEX) + Digits(EXTRA_DATA_TYPE_EXITED_VALIDATORS, ITEM_TYPE)
    + Digits(p.moduleId, MODULE_ID) + Digits(|p.nodeOperatorIds|, NODE_OPS_COUNT)
    + AllDigits(p.nodeOperatorIds, NODE_OPERATOR_ID) + AllDigits(p.value, NODE_OPERATOR_VALUE)
  }

  /** None when `to_bytes` overflows. */
  function EncodeItem(index: nat, p: ItemPayload): (r: Option<Bytes>)
    ensures r == if ItemFits(index, p) then Some(ItemDigits(index, p)) else None
  {
    var indexBytes := ToBytes(index, ITEM_INDEX);
    var typeBytes := ToBytes(EXTRA_DATA_TYPE_EXITED_VALIDATORS, ITEM_TYPE);
    var moduleBytes := ToBytes(p.moduleId, MODULE_ID);
    var countBytes := ToBytes(|p.nodeOperatorIds|, NODE_OPS_COUNT);
    var idBytes := AllToBytes(p.nodeOperatorIds, NODE_OPERATOR_ID);
    var valueBytes := AllToBytes(p.value, NODE_OPERATOR_VALUE);
    assert Pow256(ITEM_TYPE) == 65536;
    if indexBytes.None? || typeBytes.None? || moduleBytes.None? || countBytes.None? || idBytes.None? || valueBytes.None?
    then None
    else Some(indexBytes.value + typeBytes.value + moduleBytes.value + countBytes.value
              + idBytes.value + valueBytes.value)
  }

  function TxDigits(payloads: seq<ItemPayload>, first: nat): Bytes {
    if payloads == [] then [] else ItemDigits(first, payloads[0]) + TxDigits(payloads[1..], first + 1)
  }

  function BatchEnd(count: nat, max: nat): nat {
    if count < max then count else max
  }

  /** The bodies of the transactions: batches of `max` items, numbered from `first`. */
  function TxBodies(payloads: seq<ItemPayload>, max: nat, first: nat): seq<Bytes>
    requires max > 0
    decreases |payloads|
  {
    if payloads == [] then []
    else
      var n := BatchEnd(|payloads|, max);
      [TxDigits(payloads[..n], first)] + TxBodies(payloads[n..], max, first + n)
  }

  lemma {:induction false} TxOneMore(payloads: seq<ItemPayload>, n: nat, first: nat)
    requires n < |payloads|
    ensures TxDigits(payloads[..n + 1], first) == TxDigits(payloads[..n], first) + ItemDigits(first + n, payloads[n])
    decreases n
  {
    hide ItemDigits;
    if n == 0 {
      assert payloads[..1][1..] == [];
    } else {
      TxOneMore(payloads[1..], n - 1, first + 1);
      assert payloads[..n + 1][1..] == payloads[1..][..n] && payloads[..n][1..] == payloads[1..][..n - 1];
    }
  }

  ghost predicate ItemsFit(payloads: seq<ItemPayload>, n: nat)
    requires n <= |payloads|
  {
    forall k :: 0 <= k < n ==> ItemFits(k, payloads[k])
  }

  lemma {:induction false} OneMoreFits(payloads: seq<ItemPayload>, n: nat, stop: nat)
    requires n < stop <= |payloads|
    ensures ItemsFit(payloads, n + 1) <==> ItemsFit(payloads, n) && ItemFits(n, payloads[n])
    ensures ItemsFit(payloads, stop) ==> ItemFits(n, payloads[n])
  {
    hide ItemFits;
  }

  method EncodeBatch(payloads: seq<ItemPayload>, first: nat, stop: nat) returns (r: Option<Bytes>)
    requires first <= stop <= |payloads| && ItemsFit(payloads, first)
    ensures r.Some? <==> ItemsFit(payloads, stop)
    ensures r.Some? ==> r.value == TxDigits(payloads[first..stop], first)
  {
    hide ItemDigits, ItemFits, ItemsFit, TxDigits;
    var batch := payloads[first..stop];
    var txBody: Bytes := [];
    assert txBody == TxDigits(batch[..0], first) by { NothingEncoded(batch, first); }
    for k := 0 to |batch|
      invariant ItemsFit(payloads, first + k)
      invariant txBody == TxDigits(batch[..k], first)
    {
      assert batch[k] == payloads[first + k];
      OneMoreFits(payloads, first + k, stop);
      var item := EncodeItem(first + k, batch[k]);
      if item.None? {
        return None;
      }
      TxOneMore(batch, k, first);
      txBody := txBody + item.value;
    }
    assert batch[..|batch|] == batch;
    return Some(txBody);
  }

  lemma {:induction false} NothingEncoded(batch: seq<ItemPayload>, first: nat)
    ensures TxDigits(batch[..0], first) == []
  {
  }

  lemma {:induction false} TxBodiesTurn(payloads: seq<ItemPayload>, index: nat, max: nat)
    requires max > 0 && index < |payloads|
    ensures var stop := index + BatchEnd(|payloads| - index, max);
      && index < stop <= |payloads|
      && TxBodies(payloads[index..], max, index)
         == [TxDigits(payloads[index..stop], index)] + TxBodies(payloads[stop..], max, stop)
  {
    hide TxDigits;
    var stop := index + BatchEnd(|payloads| - index, max);
    assert payloads[index..][..stop - index] == payloads[index..stop];
    assert payloads[index..][stop - index..] == payloads[stop..];
  }

  method BuildExtraTransactionsData(payloads: seq<ItemPayload>, maxItemsCountPerTx: nat)
    returns (r: Option<(nat, seq<Bytes>)>)
    requires maxItemsCountPerTx > 0
    ensures r.Some? <==> ItemsFit(payloads, |payloads|)
    ensures r.Some? ==> r.value == (|payloads|, TxBodies(payloads, maxItemsCountPerTx, 0))
  {
    hide ItemFits, TxDigits, TxBodies, BatchEnd;
    var index: nat, result: seq<Bytes> := 0, [];
    assert payloads[0..] == payloads;
    assert result + TxBodies(payloads, maxItemsCountPerTx, 0) == TxBodies(payloads, maxItemsCountPerTx, 0);
    while index < |payloads|
      invariant index <= |payloads| && ItemsFit(payloads, index)
      invariant result + TxBodies(payloads[index..], maxItemsCountPerTx, index) == TxBodies(payloads, maxItemsCountPerTx, 0)
    {
      TxBodiesTurn(payloads, index, maxItemsCountPerTx);
      var stop := index + BatchEnd(|payloads| - index, maxItemsCountPerTx);
      assert result + TxBodies(payloads[index..], maxItemsCountPerTx, index)
        == result + [TxDigits(payloads[index..stop], index)] + TxBodies(payloads[stop..], maxItemsCountPerTx, stop);
      var txBody := EncodeBatch(payloads, index, stop);
      if txBody.None? {
        return None;
      }
      result := result + [txBody.value];
      index := stop;
    }
    assert payloads[|payloads|..] == [];
    assert TxBodies([], maxItemsCountPerTx, index) == [] by { NoBodies(maxItemsCountPerTx, index); }
    assert result + [] == result;
    return Some((index, result));
  }

  lemma {:induction false} NoBodies(max: nat, first: nat)
    requires max > 0
    ensures TxBodies([], max, first) == []
  {
  }

  // ----- The hash chain -----

  type Hash = h: Bytes | |h| == 32 witness seq(32, _ => 0)

  const ZERO_HASH: Hash := seq(32, _ => 0)

  /** The transactions, each one led by the hash of the next full one, and the hash of the first. */
  function Chained(txs: seq<Bytes>, keccak: Bytes -> Hash): (Hash, seq<Bytes>) {
    if txs == [] then (ZERO_HASH, [])
    else
      var (next, rest) := Chained(txs[1..], keccak);
      (keccak(next + txs[0]), [next + txs[0]] + rest)
  }

  function Reverse<T>(xs: seq<T>): seq<T> {
    seq(|xs|, i requires 0 <= i < |xs| => xs[|xs| - 1 - i])
  }

  method AddHashesToTransactions(txsData: seq<Bytes>, keccak: Bytes -> Hash) returns (firstHash: Hash, txs: seq<Bytes>)
    ensures (firstHash, txs) == Chained(txsData, keccak)
  {
    var reversed := Reverse(txsData);
    var withHashes: seq<Bytes> := [];
    firstHash := ZERO_HASH;
    assert txsData[|txsData| - 0..] == [] && Reverse(withHashes) == [];
    for n := 0 to |reversed|
      invariant (firstHash, Reverse(withHashes)) == Chained(txsData[|txsData| - n..], keccak)
    {
      var tx := reversed[n];
      var fullTxData := firstHash + tx;
      assert txsData[|txsData| - n - 1..] == [tx] + txsData[|txsData| - n..];
      assert Reverse(withHashes + [fullTxData]) == [fullTxData] + Reverse(withHashes);
      withHashes := withHashes + [fullTxData];
      firstHash := keccak(fullTxData);
    }
    assert txsData[0..] == txsData;
    txs := Reverse(withHashes);
  }

  // ----- All of it -----

  datatype Collected = Collected(itemsCount: nat, extraDataList: seq<Bytes>, dataHash: Hash, nonEmptyFormat: bool)

  /** The payloads of a dictionary. */
  ghost predicate ArePayloads(validators: seq<Entry>, maxNo: nat, payloads: seq<ItemPayload>) {
    WellCut(payloads, maxNo) && EntriesOf(payloads) == Sort(validators, Order())
  }

  /** All payloads encoded, batched and chained; nothing if some field overflows. */
  ghost predicate IsCollected(payloads: seq<ItemPayload>, maxItems: nat, keccak: Bytes -> Hash, r: Option<Collected>)
    requires maxItems > 0
  {
    && (r.Some? <==> ItemsFit(payloads, |payloads|))
    && (r.Some? ==>
          && r.value.itemsCount == |payloads| && (r.value.nonEmptyFormat <==> |payloads| > 0)
          && (r.value.dataHash, r.value.extraDataList) == Chained(TxBodies(payloads, maxItems, 0), keccak))
  }

  method Collect(
      validators: seq<Entry>, maxItemsCountPerTx: nat, maxNoInPayloadCount: nat, keccak: Bytes -> Hash)
    returns (r: Option<Collected>)
    requires maxItemsCountPerTx > 0 && maxNoInPayloadCount > 0
    ensures exists payloads ::
      ArePayloads(validators, maxNoInPayloadCount, payloads) && IsCollected(payloads, maxItemsCountPerTx, keccak, r)
  {
    hide ItemFits, WellCut, EntriesOf;
    var exitedPayloads := BuildValidatorsPayloads(validators, maxNoInPayloadCount);
    assert ArePayloads(validators, maxNoInPayloadCount, exitedPayloads);
    var built := BuildExtraTransactionsData(exitedPayloads, maxItemsCountPerTx);
    if built.None? {
      r := None;
      assert IsCollected(exitedPayloads, maxItemsCountPerTx, keccak, r);
      return;
    }
    var firstHash, hashedTxs := AddHashesToTransactions(built.value.1, keccak);
    r := Some(Collected(built.value.0, hashedTxs, firstHash, built.value.0 != 0));
    assert IsCollected(exitedPayloads, maxItemsCountPerTx, keccak, r);
  }

  // ----- The cut is determined -----

  lemma {:induction false} EntriesFromFront(payloads: seq<ItemPayload>)
    requires payloads != [] && forall k :: 0 <= k < |payloads| ==> payloads[k].Valid()
    ensures EntriesOf(payloads) == payloads[0].Entries() + EntriesOf(payloads[1..])
    decreases |payloads|
  {
    var front, last := payloads[..|payloads| - 1], payloads[|payloads| - 1];
    if front == [] {
      assert payloads == [last] && EntriesOf(payloads[1..]) == [];
    } else {
      EntriesFromFront(front);
      assert payloads[1..][..|payloads[1..]| - 1] == front[1..];
      assert EntriesOf(payloads[1..]) == EntriesOf(front[1..]) + last.Entries();
    }
  }

  lemma {:induction false} FirstEntries(payloads: seq<ItemPayload>, max: nat, k: nat)
    requires WellCut(payloads, max) && payloads != []
    ensures |payloads[0].value| <= |EntriesOf(payloads)|
    ensures k < |payloads[0].value| ==> EntriesOf(payloads)[k] == payloads[0].Entries()[k]
    ensures |payloads[0].value| < |EntriesOf(payloads)| ==>
      |payloads| > 1 && EntriesOf(payloads)[|payloads[0].value|].moduleId == payloads[1].moduleId
    ensures WellCut(payloads[1..], max)
    ensures EntriesOf(payloads[1..]) == EntriesOf(payloads)[|payloads[0].value|..]
  {
    EntriesFromFront(payloads);
    assert |payloads[0].Entries()| == |payloads[0].value|;
    if |payloads| > 1 {
      EntriesFromFront(payloads[1..]);
      assert payloads[1].Entries()[0].moduleId == payloads[1].moduleId;
    } else {
      assert payloads[1..] == [];
    }
  }

  /** If the first payload of `a` were the shorter one, it would not be full although its module goes on. */
  lemma {:induction false} FirstIsNotShorter(a: seq<ItemPayload>, b: seq<ItemPayload>, max: nat)
    requires WellCut(a, max) && WellCut(b, max) && a != [] && b != [] && EntriesOf(a) == EntriesOf(b)
    ensures |a[0].value| >= |b[0].value|
  {
    hide WellCut, EntriesOf;
    if |a[0].value| < |b[0].value| {
      FirstEntries(a, max, 0);
      FirstEntries(b, max, 0);
      FirstEntries(b, max, |a[0].value|);
      FirstIsFull(a, max);
      FirstIsFull(b, max);
    }
  }

  lemma {:induction false} FirstIsFull(payloads: seq<ItemPayload>, max: nat)
    requires WellCut(payloads, max) && payloads != []
    ensures 0 < |payloads[0].value| <= max
    ensures |payloads| > 1 && payloads[0].moduleId == payloads[1].moduleId ==> |payloads[0].value| == max
    ensures payloads[0].Entries()[0].moduleId == payloads[0].moduleId
  {
  }

  lemma {:induction false} SamePayload(a: ItemPayload, b: ItemPayload)
    requires a.Valid() && b.Valid() && a.value != [] && a.Entries() == b.Entries()
    ensures a == b
  {
    assert a.Entries()[0].moduleId == b.Entries()[0].moduleId;
    assert |a.value| == |a.Entries()| == |b.Entries()| == |b.value|;
    forall k | 0 <= k < |a.value| ensures a.value[k] == b.value[k] && a.nodeOperatorIds[k] == b.nodeOperatorIds[k] {
      assert a.Entries()[k] == b.Entries()[k];
    }
  }

  /** The payloads of a dictionary are determined: batching is as greedy as it can be. */
  lemma {:induction false} CutIsUnique(a: seq<ItemPayload>, b: seq<ItemPayload>, max: nat)
    requires WellCut(a, max) && WellCut(b, max) && EntriesOf(a) == EntriesOf(b)
    ensures a == b
    decreases |a|
  {
    hide EntriesOf;
    if a == [] || b == [] {
      NoEntries(a, max);
      NoEntries(b, max);
    } else {
      FirstIsNotShorter(a, b, max);
      FirstIsNotShorter(b, a, max);
      FirstEntries(a, max, 0);
      FirstEntries(b, max, 0);
      forall k | 0 <= k < |a[0].value| ensures a[0].Entries()[k] == b[0].Entries()[k] {
        FirstEntries(a, max, k);
        FirstEntries(b, max, k);
      }
      assert a[0].Entries() == b[0].Entries();
      SamePayload(a[0], b[0]);
      CutIsUnique(a[1..], b[1..], max);
      assert a == [a[0]] + a[1..] && b == [b[0]] + b[1..];
    }
  }

  lemma {:induction false} NoEntries(payloads: seq<ItemPayload>, max: nat)
    requires WellCut(payloads, max)
    ensures EntriesOf(payloads) == [] <==> payloads == []
  {
    if payloads != [] { FirstEntries(payloads, max, 0); }
  }
}
