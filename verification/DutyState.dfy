/** Duty counters of a frame, and the state that keeps them frame by frame. */
module DutyState {
  import opened Wrappers
  import opened Arithmetic
  import opened SetSums
  import opened Sorting

  type ValidatorIndex = nat

  datatype DutyAccumulator = DutyAccumulator(assignedCount: int, includedCount: int) {
    function Perf(): real {
      if assignedCount == 0 then 0.0 else includedCount as real / assignedCount as real
    }

    function Plus(other: DutyAccumulator): DutyAccumulator {
      DutyAccumulator(assignedCount + other.assignedCount, includedCount + other.includedCount)
    }

    predicate Sound() {
      0 <= includedCount <= assignedCount
    }
  }

  const ZERO := DutyAccumulator(0, 0)

  type Accumulators = map<ValidatorIndex, DutyAccumulator>

  /** A `defaultdict` look-up. */
  function Get(m: Accumulators, v: ValidatorIndex): DutyAccumulator {
    if v in m then m[v] else ZERO
  }

  /** `m[v].assigned += ...` and `m[v].included += ...`. */
  function Added(m: Accumulators, v: ValidatorIndex, d: DutyAccumulator): Accumulators {
    m[v := Get(m, v).Plus(d)]
  }

  lemma {:induction false} GetAdded(m: Accumulators, v: ValidatorIndex, d: DutyAccumulator)
    ensures forall u :: u in Added(m, v, d) <==> u == v || u in m
    ensures forall u :: Get(Added(m, v, d), u) == if u == v then Get(m, v).Plus(d) else Get(m, u)
  {
  }

  lemma {:induction false} GetPresent(m: Accumulators, v: ValidatorIndex)
    requires v in m
    ensures Get(m, v) == m[v]
  {
  }

  lemma {:induction false} PlusZero(d: DutyAccumulator)
    ensures d.Plus(ZERO) == d
  {
    match d case DutyAccumulator(_, _) =>
  }

  lemma {:induction false} PlusAbsent(a: Accumulators, b: Accumulators, v: ValidatorIndex)
    requires v !in b
    ensures Get(a, v).Plus(Get(b, v)) == Get(a, v)
  {
    PlusZero(Get(a, v));
  }

  datatype NetworkDuties = NetworkDuties(attestations: Accumulators, proposals: Accumulators, syncs: Accumulators)

  const NO_DUTIES := NetworkDuties(map[], map[], map[])

  ghost predicate AllSound(m: Accumulators) {
    forall v :: v in m ==> m[v].Sound()
  }

  // ----- Merging -----

  ghost predicate IsMerge(a: Accumulators, b: Accumulators, r: Accumulators) {
    && (forall v :: v in r <==> v in a || v in b)
    && forall v :: Get(r, v) == Get(a, v).Plus(Get(b, v))
  }

  method MergeAccumulators(a: Accumulators, b: Accumulators) returns (r: Accumulators)
    ensures IsMerge(a, b, r)
  {
    hide Get, Added, DutyAccumulator.Plus;
    r := a;
    var keys := b.Keys;
    while keys != {}
      invariant keys <= b.Keys
      invariant forall v :: v in r <==> v in a || (v in b && v !in keys)
      invariant forall v :: Get(r, v) == if v in b && v !in keys then Get(a, v).Plus(Get(b, v)) else Get(a, v)
      decreases |keys|
    {
      var v :| v in keys;
      assert b[v] == Get(b, v) by { GetPresent(b, v); }
      GetAdded(r, v, b[v]);
      r := Added(r, v, b[v]);
      keys := keys - {v};
    }
    forall v | v !in b ensures Get(a, v) == Get(a, v).Plus(Get(b, v)) {
      PlusAbsent(a, b, v);
    }
  }

  method Merge(a: NetworkDuties, b: NetworkDuties) returns (r: NetworkDuties)
    ensures IsMerge(a.attestations, b.attestations, r.attestations)
    ensures IsMerge(a.proposals, b.proposals, r.proposals)
    ensures IsMerge(a.syncs, b.syncs, r.syncs)
  {
    var attestations := MergeAccumulators(a.attestations, b.attestations);
    var proposals := MergeAccumulators(a.proposals, b.proposals);
    var syncs := MergeAccumulators(a.syncs, b.syncs);
    r := NetworkDuties(attestations, proposals, syncs);
  }

  // ----- The network aggregate -----

  ghost function TotalAssigned(m: Accumulators): int {
    SetSum(m.Keys, (v: ValidatorIndex) => Get(m, v).assignedCount)
  }

  ghost function TotalIncluded(m: Accumulators): int {
    SetSum(m.Keys, (v: ValidatorIndex) => Get(m, v).includedCount)
  }

  method GetDutyNetworkAggr(m: Accumulators) returns (r: Option<DutyAccumulator>)
    ensures r.None? <==> exists v :: v in m && m[v].includedCount > m[v].assignedCount
    ensures r.Some? ==> r.value == DutyAccumulator(TotalAssigned(m), TotalIncluded(m))
  {
    ghost var assignedOf := (v: ValidatorIndex) => Get(m, v).assignedCount;
    ghost var includedOf := (v: ValidatorIndex) => Get(m, v).includedCount;
    var assignedCount, includedCount := 0, 0;
    var keys := m.Keys;
    while keys != {}
      invariant keys <= m.Keys
      invariant forall v :: v in m && v !in keys ==> m[v].includedCount <= m[v].assignedCount
      invariant assignedCount + SetSum(keys, assignedOf) == SetSum(m.Keys, assignedOf)
      invariant includedCount + SetSum(keys, includedOf) == SetSum(m.Keys, includedOf)
      decreases |keys|
    {
      var v :| v in keys;
      if m[v].includedCount > m[v].assignedCount {
        return None;
      }
      TakeOff(keys, v, assignedOf);
      TakeOff(keys, v, includedOf);
      assignedCount, includedCount := assignedCount + m[v].assignedCount, includedCount + m[v].includedCount;
      keys := keys - {v};
    }
    return Some(DutyAccumulator(assignedCount, includedCount));
  }

  /** A figure that merging adds up. */
  lemma {:induction false} MergedSum(
      a: Accumulators, b: Accumulators, r: Accumulators,
      fa: ValidatorIndex -> int, fb: ValidatorIndex -> int, fr: ValidatorIndex -> int)
    requires forall v :: v in r <==> v in a || v in b
    requires forall v :: v !in a ==> fa(v) == 0
    requires forall v :: v !in b ==> fb(v) == 0
    requires forall v :: v in r ==> fr(v) == fa(v) + fb(v)
    ensures SetSum(r.Keys, fr) == SetSum(a.Keys, fa) + SetSum(b.Keys, fb)
  {
    SetSumWider(a.Keys, r.Keys, fa);
    SetSumWider(b.Keys, r.Keys, fb);
    SetSumAdds(r.Keys, fa, fb, fr);
  }

  /** Merging neither loses nor invents a duty, and keeps counters sound. */
  lemma {:induction false} MergeConserves(a: Accumulators, b: Accumulators, r: Accumulators)
    requires IsMerge(a, b, r)
    ensures TotalAssigned(r) == TotalAssigned(a) + TotalAssigned(b)
    ensures TotalIncluded(r) == TotalIncluded(a) + TotalIncluded(b)
    ensures AllSound(a) && AllSound(b) ==> AllSound(r)
  {
    MergedSum(a, b, r, (v: ValidatorIndex) => Get(a, v).assignedCount, (v: ValidatorIndex) => Get(b, v).assignedCount,
      (v: ValidatorIndex) => Get(r, v).assignedCount);
    MergedSum(a, b, r, (v: ValidatorIndex) => Get(a, v).includedCount, (v: ValidatorIndex) => Get(b, v).includedCount,
      (v: ValidatorIndex) => Get(r, v).includedCount);
    if AllSound(a) && AllSound(b) {
      forall v | v in r ensures r[v].Sound() {
        assert Get(r, v) == Get(a, v).Plus(Get(b, v));
      }
    }
  }

  /** The aggregate of sound counters is itself sound. */
  lemma {:induction false} AggregateIsSound(m: Accumulators)
    requires AllSound(m)
    ensures DutyAccumulator(TotalAssigned(m), TotalIncluded(m)).Sound()
  {
    SetSumMonotone(m.Keys, (v: ValidatorIndex) => Get(m, v).includedCount, (v: ValidatorIndex) => Get(m, v).assignedCount);
    SetSumMonotone(m.Keys, (v: ValidatorIndex) => 0, (v: ValidatorIndex) => Get(m, v).includedCount);
    SetSumWider({}, m.Keys, (v: ValidatorIndex) => 0);
  }

  // ----- Performance -----

  datatype ValidatorDuties = ValidatorDuties(
    attestation: Option<DutyAccumulator>, proposal: Option<DutyAccumulator>, sync: Option<DutyAccumulator>)

  datatype PerformanceCoefficients = PerformanceCoefficients(
    attestationsWeight: nat, blocksWeight: nat, syncWeight: nat)

  function WeightOf(duty: Option<DutyAccumulator>, weight: nat): nat {
    if duty.Some? then weight else 0
  }

  function Base(c: PerformanceCoefficients, d: ValidatorDuties): nat {
    WeightOf(d.attestation, c.attestationsWeight) + WeightOf(d.proposal, c.blocksWeight)
    + WeightOf(d.sync, c.syncWeight)
  }

  function Weighted(duty: Option<DutyAccumulator>, weight: nat): real {
    if duty.Some? then duty.value.Perf() * weight as real else 0.0
  }

  /** None where the source raises: no weight to divide by, or a performance above 1. */
  function CalcPerformance(c: PerformanceCoefficients, d: ValidatorDuties): Option<real> {
    if Base(c, d) == 0 then None
    else
      var performance := (Weighted(d.attestation, c.attestationsWeight) + Weighted(d.proposal, c.blocksWeight)
        + Weighted(d.sync, c.syncWeight)) / Base(c, d) as real;
      if performance > 1.0 then None else Some(performance)
  }

  predicate SoundDuties(d: ValidatorDuties) {
    && (d.attestation.Some? ==> d.attestation.value.Sound())
    && (d.proposal.Some? ==> d.proposal.value.Sound())
    && (d.sync.Some? ==> d.sync.value.Sound())
  }

  predicate Perfect(duty: Option<DutyAccumulator>) {
    duty.Some? ==> duty.value.assignedCount > 0 && duty.value.includedCount == duty.value.assignedCount
  }

  /** All of the duty was done, if it carries weight. */
  predicate Done(duty: Option<DutyAccumulator>, weight: nat) {
    weight == 0 || Perfect(duty)
  }

  lemma {:induction false} WeightedBounds(duty: Option<DutyAccumulator>, weight: nat)
    requires duty.Some? ==> duty.value.Sound()
    ensures 0.0 <= Weighted(duty, weight) <= WeightOf(duty, weight) as real
    ensures Weighted(duty, weight) == WeightOf(duty, weight) as real <==> Done(duty, weight)
  {
    if duty.Some? {
      var a, w := duty.value, weight as real;
      var p := a.Perf();
      assert 0.0 <= p <= 1.0 && (p == 1.0 <==> Perfect(duty)) by {
        if a.assignedCount > 0 { assert p * a.assignedCount as real == a.includedCount as real; }
      }
      assert 0.0 <= p * w <= 1.0 * w;
      if weight > 0 && p * w == w { assert (p - 1.0) * w == 0.0; }
    }
  }

  /**
     The performance of sound duties raises just when no weight counts. It is between 0 and 1, and 1 just when every
     duty that carries weight was done.
   */
  lemma {:induction false} PerformanceIsAFraction(c: PerformanceCoefficients, d: ValidatorDuties)
    requires SoundDuties(d)
    ensures CalcPerformance(c, d).Some? <==> Base(c, d) > 0
    ensures CalcPerformance(c, d).Some? ==>
      && 0.0 <= CalcPerformance(c, d).value <= 1.0
      && (CalcPerformance(c, d).value == 1.0 <==>
            Done(d.attestation, c.attestationsWeight) && Done(d.proposal, c.blocksWeight) && Done(d.sync, c.syncWeight))
  {
    hide WeightOf, Weighted, Done;
    WeightedBounds(d.attestation, c.attestationsWeight);
    WeightedBounds(d.proposal, c.blocksWeight);
    WeightedBounds(d.sync, c.syncWeight);
    var base := Base(c, d) as real;
    if base > 0.0 {
      var x, y, z := Weighted(d.attestation, c.attestationsWeight), Weighted(d.proposal, c.blocksWeight),
        Weighted(d.sync, c.syncWeight);
      PartsOf(x, y, z, WeightOf(d.attestation, c.attestationsWeight), WeightOf(d.proposal, c.blocksWeight),
        WeightOf(d.sync, c.syncWeight), base);
    }
  }

  lemma {:induction false} PartsOf(x: real, y: real, z: real, a: nat, b: nat, c: nat, base: real)
    requires 0.0 <= x <= a as real && 0.0 <= y <= b as real && 0.0 <= z <= c as real
    requires base == (a + b + c) as real > 0.0
    ensures 0.0 <= (x + y + z) / base <= 1.0
    ensures (x + y + z) / base == 1.0 <==> x == a as real && y == b as real && z == c as real
  {
    Quotient(x + y + z, base);
  }

  lemma {:induction false} Quotient(sum: real, base: real)
    requires base > 0.0 && 0.0 <= sum <= base
    ensures 0.0 <= sum / base <= 1.0
    ensures sum / base == 1.0 <==> sum == base
  {
    ProductOrder(sum / base, base);
    QuotientTimes(sum, base);
  }

  lemma {:induction false} QuotientTimes(sum: real, base: real)
    requires base > 0.0
    ensures (sum / base) * base == sum
  {
  }

  lemma {:induction false} ProductOrder(q: real, b: real)
    requires b > 0.0
    ensures q * b >= 0.0 <==> q >= 0.0
    ensures q * b <= b <==> q <= 1.0
    ensures q * b == b <==> q == 1.0
  {
    if q < 0.0 { assert (-q) * b > 0.0; } else { assert q * b >= 0.0; }
    assert (q - 1.0) * b == q * b - b;
    if q > 1.0 { assert (q - 1.0) * b > 0.0; } else if q < 1.0 { assert (1.0 - q) * b > 0.0; }
  }

  /** `x` is the included part of the duty's assignments; a missing or unassigned duty counts as none of it. */
  predicate IsPart(duty: Option<DutyAccumulator>, x: real) {
    if duty.Some? && duty.value.assignedCount != 0
    then x * duty.value.assignedCount as real == duty.value.includedCount as real
    else x == 0.0
  }

  lemma {:induction false} PartIsPerf(duty: Option<DutyAccumulator>, x: real, weight: nat)
    requires IsPart(duty, x)
    ensures Weighted(duty, weight) == x * weight as real
  {
    if duty.Some? && duty.value.assignedCount != 0 {
      var p := duty.value.Perf();
      assert p * duty.value.assignedCount as real == x * duty.value.assignedCount as real;
      assert (p - x) * duty.value.assignedCount as real == 0.0;
    }
  }

  /** The performance is the mean of the parts, by weight, over the duties that are there. */
  lemma {:induction false} PerformanceIsMean(
      c: PerformanceCoefficients, d: ValidatorDuties, attested: real, proposed: real, synced: real)
    requires IsPart(d.attestation, attested) && IsPart(d.proposal, proposed) && IsPart(d.sync, synced)
    requires CalcPerformance(c, d).Some?
    ensures CalcPerformance(c, d).value
      * ((if d.attestation.Some? then c.attestationsWeight else 0) + (if d.proposal.Some? then c.blocksWeight else 0)
         + (if d.sync.Some? then c.syncWeight else 0)) as real
      == attested * c.attestationsWeight as real + proposed * c.blocksWeight as real + synced * c.syncWeight as real
  {
    hide IsPart, Weighted;
    PartIsPerf(d.attestation, attested, c.attestationsWeight);
    PartIsPerf(d.proposal, proposed, c.blocksWeight);
    PartIsPerf(d.sync, synced, c.syncWeight);
    var sum := Weighted(d.attestation, c.attestationsWeight) + Weighted(d.proposal, c.blocksWeight)
      + Weighted(d.sync, c.syncWeight);
    QuotientTimes(sum, Base(c, d) as real);
  }

  // ----- Frames -----

  type Frame = (nat, nat)

  /** Python's `batched`, keeping the first and the last element of each batch. */
  function Batches(xs: seq<nat>, size: nat): seq<Frame>
    requires size > 0
    decreases |xs|
  {
    if xs == [] then []
    else if |xs| <= size then [(xs[0], xs[|xs| - 1])]
    else [(xs[0], xs[size - 1])] + Batches(xs[size..], size)
  }

  function Leq(): (nat, nat) -> bool {
    (a, b) => a <= b
  }

  function CalculateFrames(epochs: seq<nat>, epochsPerFrame: nat): Option<seq<Frame>>
    requires epochsPerFrame > 0
  {
    if |epochs| % epochsPerFrame != 0 then None else Some(Batches(Sort(epochs, Leq()), epochsPerFrame))
  }

  function Epochs(first: nat, count: nat): seq<nat> {
    seq(count, i requires 0 <= i < count => first + i)
  }

  lemma {:induction false} OneMoreFrame(n: int, size: nat)
    ensures n * size == (n - 1) * size + size
    ensures n >= 1 ==> n * size >= size
  {
    Distribute(size, n - 1, 1);
    if n >= 1 { AtLeast(n, size); }
  }

  /** The frame number `i` of those that start at `first`. */
  function FrameAt(first: nat, i: nat, size: nat): Frame
    requires size > 0
  {
    (first + i * size, first + i * size + size - 1)
  }

  lemma {:induction false} NextFrameAt(first: nat, i: nat, size: nat)
    requires size > 0 && i > 0
    ensures FrameAt(first, i, size) == FrameAt(first + size, i - 1, size)
    ensures FrameAt(first, 0, size) == (first, first + size - 1)
  {
    OneMoreFrame(i, size);
  }

  lemma {:induction false} BatchesTile(first: nat, n: nat, size: nat, count: nat)
    requires size > 0 && count == n * size
    ensures |Batches(Epochs(first, count), size)| == n
    ensures forall i :: 0 <= i < n ==> Batches(Epochs(first, count), size)[i] == FrameAt(first, i, size)
    decreases n
  {
    hide FrameAt;
    var xs := Epochs(first, count);
    if n == 0 {
      assert xs == [];
    } else {
      OneMoreFrame(n, size);
      NextFrameAt(first, 1, size);
      if n == 1 {
        assert |xs| == size;
      } else {
        OneMoreFrame(n - 1, size);
        assert xs[size..] == Epochs(first + size, count - size);
        BatchesTile(first + size, n - 1, size, count - size);
        forall i | 0 < i < n ensures Batches(xs, size)[i] == FrameAt(first, i, size) {
          NextFrameAt(first, i, size);
          assert Batches(xs, size)[i] == Batches(xs[size..], size)[i - 1];
        }
      }
    }
  }

  lemma {:induction false} SortedIsRange(epochs: seq<nat>, first: nat, count: nat)
    requires multiset(epochs) == multiset(Epochs(first, count))
    ensures Sort(epochs, Leq()) == Epochs(first, count) && |epochs| == count
  {
    SameLength(epochs, Epochs(first, count));
    SortSorts(epochs, Leq());
    SortedArrangementIsUnique(Sort(epochs, Leq()), Epochs(first, count), Leq());
  }

  /** The frames of a range of epochs follow one another without gap, whatever order the epochs come in. */
  lemma {:induction false} FramesTile(epochs: seq<nat>, first: nat, n: nat, size: nat)
    requires size > 0 && multiset(epochs) == multiset(Epochs(first, n * size))
    ensures CalculateFrames(epochs, size).Some?
    ensures |CalculateFrames(epochs, size).value| == n
    ensures forall i :: 0 <= i < n ==>
      CalculateFrames(epochs, size).value[i] == FrameAt(first, i, size)
  {
    hide FrameAt, Epochs, Batches;
    SortedIsRange(epochs, first, n * size);
    MultipleHasNoRemainder(n, size);
    BatchesTile(first, n, size, n * size);
  }

  /** The processing state: one record of network duties for each frame. */
  class State {
    var data: map<Frame, NetworkDuties>

    constructor (frames: seq<Frame>)
      ensures forall f :: f in data <==> f in frames
      ensures forall f :: f in data ==> data[f] == NO_DUTIES
    {
      data := map f | f in frames :: NO_DUTIES;
    }

    method SaveDuties(frame: Frame, duties: NetworkDuties) returns (known: bool)
      modifies this
      ensures known <==> frame in old(data)
      ensures data.Keys == old(data).Keys
      ensures forall f :: f in data && f != frame ==> data[f] == old(data)[f]
      ensures known ==>
        && IsMerge(old(data)[frame].attestations, duties.attestations, data[frame].attestations)
        && IsMerge(old(data)[frame].proposals, duties.proposals, data[frame].proposals)
        && IsMerge(old(data)[frame].syncs, duties.syncs, data[frame].syncs)
    {
      hide IsMerge;
      if frame !in data {
        return false;
      }
      var merged := Merge(data[frame], duties);
      data := data[frame := merged];
      return true;
    }
  }
}
