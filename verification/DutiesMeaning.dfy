/** What the counters of a frame say, entry by entry of the rows, and in sum over the network. */
module DutiesMeaning {
  import opened SetSums
  import opened DutiesDb
  import opened DutyState
  import opened FrameDuties
  import opened FrameDutiesLemmas
  import Collector

  /** An entry of the rows: the number of the row, and a position in its list. */
  type Entry = (nat, nat)

  type Lists = seq<seq<ValidatorIndex>>

  function SyncLists(rows: seq<Duty>): (r: Lists)
    ensures |r| == |rows|
  {
    seq(|rows|, k requires 0 <= k < |rows| => rows[k].syncsVids)
  }

  function ProposalLists(rows: seq<Duty>): (r: Lists)
    ensures |r| == |rows|
  {
    seq(|rows|, k requires 0 <= k < |rows| => rows[k].proposalsVids)
  }

  predicate IsEntry(lists: Lists, e: Entry) {
    e.0 < |lists| && e.1 < |lists[e.0]|
  }

  /** All entries. */
  ghost function Entries(lists: Lists): set<Entry> {
    set k: nat, p: nat | k < |lists| && p < |lists[k]| :: (k, p)
  }

  /** The entries of one validator. */
  ghost function EntriesOf(lists: Lists, v: ValidatorIndex): set<Entry> {
    set e | e in Entries(lists) && lists[e.0][e.1] == v
  }

  /** The blocks proposed in the epoch of a row. */
  ghost function BlocksIn(row: Duty): nat {
    |set i | 0 <= i < |row.proposalsFlags| && row.proposalsFlags[i]|
  }

  ghost function BlocksAt(rows: seq<Duty>): Entry -> int {
    (e: Entry) => if e.0 < |rows| then BlocksIn(rows[e.0]) else 0
  }

  /** The misses listed at an entry; a row without blocks does not count. */
  ghost function MissesAt(rows: seq<Duty>): Entry -> int {
    (e: Entry) =>
      if e.0 < |rows| && e.1 < |rows[e.0].syncsMisses| && BlocksIn(rows[e.0]) > 0 then rows[e.0].syncsMisses[e.1] else 0
  }

  function OneAt(): Entry -> int {
    (e: Entry) => 1
  }

  function FlagAt(rows: seq<Duty>): Entry -> int {
    (e: Entry) =>
      if e.0 < |rows| && e.1 < |rows[e.0].proposalsFlags| && rows[e.0].proposalsFlags[e.1] then 1 else 0
  }

  // ----- Sums in the order of the rows -----

  /** The entries of the first `n` rows, and of the first `m` positions of the next one. */
  ghost predicate Reaches(lists: Lists, n: nat, m: nat) {
    n <= |lists| && if n < |lists| then m <= |lists[n]| else m == 0
  }

  ghost function SumUpTo(lists: Lists, n: nat, m: nat, v: ValidatorIndex, f: Entry -> int): int
    requires Reaches(lists, n, m)
    decreases n, m
  {
    if m > 0 then SumUpTo(lists, n, m - 1, v, f) + (if lists[n][m - 1] == v then f((n, m - 1)) else 0)
    else if n > 0 then SumUpTo(lists, n - 1, |lists[n - 1]|, v, f)
    else 0
  }

  ghost function EntriesUpTo(lists: Lists, n: nat, m: nat, v: ValidatorIndex): set<Entry> {
    set e | e in EntriesOf(lists, v) && (e.0 < n || (e.0 == n && e.1 < m))
  }

  lemma {:induction false} OneMoreEntry(lists: Lists, n: nat, m: nat, v: ValidatorIndex)
    requires n < |lists| && m < |lists[n]|
    ensures (n, m) !in EntriesUpTo(lists, n, m, v)
    ensures EntriesUpTo(lists, n, m + 1, v)
      == EntriesUpTo(lists, n, m, v) + (if lists[n][m] == v then {(n, m)} else {})
  {
    assert (n, m) in Entries(lists);
  }

  lemma {:induction false} OneMoreList(lists: Lists, n: nat, v: ValidatorIndex)
    requires 0 < n <= |lists|
    ensures EntriesUpTo(lists, n, 0, v) == EntriesUpTo(lists, n - 1, |lists[n - 1]|, v)
  {
  }

  lemma {:induction false} SumIsOverEntries(lists: Lists, n: nat, m: nat, v: ValidatorIndex, f: Entry -> int)
    requires Reaches(lists, n, m)
    ensures SumUpTo(lists, n, m, v, f) == SetSum(EntriesUpTo(lists, n, m, v), f)
    decreases n, m
  {
    hide EntriesUpTo, SetSum;
    if m > 0 {
      SumIsOverEntries(lists, n, m - 1, v, f);
      OneMoreEntry(lists, n, m - 1, v);
      if lists[n][m - 1] == v {
        PutOn(EntriesUpTo(lists, n, m - 1, v), (n, m - 1), f);
      } else {
        assert EntriesUpTo(lists, n, m, v) == EntriesUpTo(lists, n, m - 1, v);
      }
    } else if n > 0 {
      SumIsOverEntries(lists, n - 1, |lists[n - 1]|, v, f);
      OneMoreList(lists, n, v);
    } else {
      NoEntries(lists, v, f);
    }
  }

  lemma {:induction false} NoEntries(lists: Lists, v: ValidatorIndex, f: Entry -> int)
    ensures SetSum(EntriesUpTo(lists, 0, 0, v), f) == 0
  {
    assert EntriesUpTo(lists, 0, 0, v) == {};
  }

  lemma {:induction false} WholeSum(lists: Lists, v: ValidatorIndex, f: Entry -> int)
    ensures SumUpTo(lists, |lists|, 0, v, f) == SetSum(EntriesOf(lists, v), f)
  {
    SumIsOverEntries(lists, |lists|, 0, v, f);
    assert EntriesUpTo(lists, |lists|, 0, v) == EntriesOf(lists, v);
  }

  lemma {:induction false} BlocksAreFlags(flags: seq<bool>)
    ensures Collector.CountTrue(flags) == |set i | 0 <= i < |flags| && flags[i]|
  {
    if flags != [] {
      var n := |flags| - 1;
      BlocksAreFlags(flags[..n]);
      var before, after := set i | 0 <= i < n && flags[..n][i], set i | 0 <= i < |flags| && flags[i];
      assert after == before + (if flags[n] then {n} else {});
    }
  }

  // ----- What the counters of a validator are -----

  lemma {:induction false} NextOfSum(lists: Lists, n: nat, m: nat, v: ValidatorIndex, f: Entry -> int)
    requires n < |lists| && m <= |lists[n]|
    ensures m > 0 ==>
      SumUpTo(lists, n, m, v, f)
        == SumUpTo(lists, n, m - 1, v, f) + (if lists[n][m - 1] == v then f((n, m - 1)) else 0)
    ensures m == 0 && n > 0 ==> SumUpTo(lists, n, m, v, f) == SumUpTo(lists, n - 1, |lists[n - 1]|, v, f)
    ensures m == 0 && n == 0 ==> SumUpTo(lists, n, m, v, f) == 0
  {
  }

  lemma {:induction false} NextOfSyncs(rows: seq<Duty>, n: nat, m: nat, v: ValidatorIndex)
    requires RowsWellFormed(rows, |rows|) && n < |rows| && m <= |rows[n].syncsVids| == |rows[n].syncsMisses|
    ensures var d := SyncsIn(rows[n], m, v);
      if m == 0 then d == ZERO
      else
        var before, e := SyncsIn(rows[n], m - 1, v), (n, m - 1);
        && d.assignedCount == before.assignedCount + (if rows[n].syncsVids[m - 1] == v then BlocksAt(rows)(e) else 0)
        && (d.assignedCount - d.includedCount == before.assignedCount - before.includedCount
              + (if rows[n].syncsVids[m - 1] == v then MissesAt(rows)(e) else 0))
  {
    BlocksAgree(rows[n]);
    hide BlocksIn, Blocks;
  }

  lemma {:induction false} NextRowOfSyncs(rows: seq<Duty>, n: nat, v: ValidatorIndex)
    requires RowsWellFormed(rows, |rows|) && n < |rows|
    ensures if n == 0 then SyncsBelow(rows, n, v) == ZERO
      else
        |rows[n - 1].syncsVids| == |rows[n - 1].syncsMisses| &&
        SyncsBelow(rows, n, v)
          == SyncsBelow(rows, n - 1, v).Plus(SyncsIn(rows[n - 1], |rows[n - 1].syncsVids|, v))
  {
    if n > 0 { assert WellFormed(rows[n - 1]); }
  }

  lemma {:induction false} ListOfRow(rows: seq<Duty>, n: nat)
    requires n < |rows|
    ensures SyncLists(rows)[n] == rows[n].syncsVids && (n > 0 ==> SyncLists(rows)[n - 1] == rows[n - 1].syncsVids)
  {
  }

  lemma {:induction false} SyncsAreSums(rows: seq<Duty>, n: nat, m: nat, v: ValidatorIndex)
    requires RowsWellFormed(rows, |rows|) && n < |rows| && m <= |rows[n].syncsVids| == |rows[n].syncsMisses|
    ensures var d := SyncsBelow(rows, n, v).Plus(SyncsIn(rows[n], m, v));
      && d.assignedCount == SumUpTo(SyncLists(rows), n, m, v, BlocksAt(rows))
      && d.assignedCount - d.includedCount == SumUpTo(SyncLists(rows), n, m, v, MissesAt(rows))
    decreases n, m
  {
    hide SumUpTo, SyncsIn, SyncsBelow, BlocksAt, MissesAt, WellFormed, SyncLists;
    assert |SyncLists(rows)| == |rows| && SyncLists(rows)[n] == rows[n].syncsVids
      && (n > 0 ==> SyncLists(rows)[n - 1] == rows[n - 1].syncsVids) by { ListOfRow(rows, n); }
    NextOfSum(SyncLists(rows), n, m, v, BlocksAt(rows));
    NextOfSum(SyncLists(rows), n, m, v, MissesAt(rows));
    NextOfSyncs(rows, n, m, v);
    NextRowOfSyncs(rows, n, v);
    if m > 0 {
      SyncsAreSums(rows, n, m - 1, v);
    } else if n > 0 {
      SyncsAreSums(rows, n - 1, |rows[n - 1].syncsVids|, v);
    }
  }

  lemma {:induction false} BlocksAgree(row: Duty)
    ensures Blocks(row) == BlocksIn(row)
  {
    BlocksAreFlags(row.proposalsFlags);
  }

  lemma {:induction false} AllSyncsAreSums(rows: seq<Duty>, v: ValidatorIndex)
    requires RowsWellFormed(rows, |rows|)
    ensures SyncsBelow(rows, |rows|, v).assignedCount == SetSum(EntriesOf(SyncLists(rows), v), BlocksAt(rows))
    ensures (SyncsBelow(rows, |rows|, v).assignedCount - SyncsBelow(rows, |rows|, v).includedCount
      == SetSum(EntriesOf(SyncLists(rows), v), MissesAt(rows)))
  {
    hide SyncsIn, BlocksAt, MissesAt, EntriesOf, SetSum, WellFormed;
    var n, lists := |rows|, SyncLists(rows);
    WholeSum(lists, v, BlocksAt(rows));
    WholeSum(lists, v, MissesAt(rows));
    if n > 0 {
      assert WellFormed(rows[n - 1]);
      SyncsWellFormed(rows[n - 1]);
      SyncsAreSums(rows, n - 1, |rows[n - 1].syncsVids|, v);
    }
  }

  lemma {:induction false} SyncsWellFormed(row: Duty)
    requires WellFormed(row)
    ensures |row.syncsVids| == |row.syncsMisses|
  {
  }

  /**
     A validator's sync duties: one for every block of each row it is listed in, and all included but the misses
     listed there. Being listed twice in a row counts twice.
   */
  lemma {:induction false} SyncsMeaning(
      d: NetworkDuties, rows: seq<Duty>, validators: Validators, lEpoch: nat, rEpoch: nat, v: ValidatorIndex)
    requires RowsWellFormed(rows, |rows|) && IsAccounting(d, rows, validators, lEpoch, rEpoch)
    ensures Get(d.syncs, v).assignedCount == SetSum(EntriesOf(SyncLists(rows), v), BlocksAt(rows))
    ensures (Get(d.syncs, v).assignedCount - Get(d.syncs, v).includedCount
      == SetSum(EntriesOf(SyncLists(rows), v), MissesAt(rows)))
  {
    hide SyncsBelow, ProposalsBelow, AreAttestations, Tight, IsSum, WellFormed, SetSum, EntriesOf, BlocksAt, MissesAt, Get;
    CountedFromNothing(d.syncs, SyncCounts(rows, |rows|), v);
    AllSyncsAreSums(rows, v);
  }

  lemma {:induction false} NextOfProposals(rows: seq<Duty>, n: nat, m: nat, v: ValidatorIndex)
    requires n < |rows| && m <= |rows[n].proposalsVids| == |rows[n].proposalsFlags|
    ensures var d := ProposalsIn(rows[n], m, v);
      if m == 0 then d == ZERO
      else
        var before, e := ProposalsIn(rows[n], m - 1, v), (n, m - 1);
        && d.assignedCount == before.assignedCount + (if rows[n].proposalsVids[m - 1] == v then OneAt()(e) else 0)
        && d.includedCount == before.includedCount + (if rows[n].proposalsVids[m - 1] == v then FlagAt(rows)(e) else 0)
  {
  }

  lemma {:induction false} NextRowOfProposals(rows: seq<Duty>, n: nat, v: ValidatorIndex)
    requires RowsWellFormed(rows, |rows|) && n < |rows|
    ensures if n == 0 then ProposalsBelow(rows, n, v) == ZERO
      else
        |rows[n - 1].proposalsVids| == |rows[n - 1].proposalsFlags| &&
        ProposalsBelow(rows, n, v)
          == ProposalsBelow(rows, n - 1, v).Plus(ProposalsIn(rows[n - 1], |rows[n - 1].proposalsVids|, v))
  {
    if n > 0 { assert WellFormed(rows[n - 1]); }
  }

  lemma {:induction false} ProposalsAreSums(rows: seq<Duty>, n: nat, m: nat, v: ValidatorIndex)
    requires RowsWellFormed(rows, |rows|) && n < |rows| && m <= |rows[n].proposalsVids| == |rows[n].proposalsFlags|
    ensures var d := ProposalsBelow(rows, n, v).Plus(ProposalsIn(rows[n], m, v));
      && d.assignedCount == SumUpTo(ProposalLists(rows), n, m, v, OneAt())
      && d.includedCount == SumUpTo(ProposalLists(rows), n, m, v, FlagAt(rows))
    decreases n, m
  {
    hide SumUpTo, ProposalsIn, ProposalsBelow, OneAt, FlagAt, WellFormed;
    NextOfSum(ProposalLists(rows), n, m, v, OneAt());
    NextOfSum(ProposalLists(rows), n, m, v, FlagAt(rows));
    NextOfProposals(rows, n, m, v);
    NextRowOfProposals(rows, n, v);
    if m > 0 {
      ProposalsAreSums(rows, n, m - 1, v);
    } else if n > 0 {
      ProposalsAreSums(rows, n - 1, |rows[n - 1].proposalsVids|, v);
    }
  }

  lemma {:induction false} AllProposalsAreSums(rows: seq<Duty>, v: ValidatorIndex)
    requires RowsWellFormed(rows, |rows|)
    ensures ProposalsBelow(rows, |rows|, v).assignedCount == |EntriesOf(ProposalLists(rows), v)|
    ensures ProposalsBelow(rows, |rows|, v).includedCount == SetSum(EntriesOf(ProposalLists(rows), v), FlagAt(rows))
  {
    hide ProposalsIn, FlagAt, EntriesOf, SetSum, WellFormed;
    var n, lists := |rows|, ProposalLists(rows);
    WholeSum(lists, v, OneAt());
    WholeSum(lists, v, FlagAt(rows));
    SetSumOfConstant(EntriesOf(lists, v), 1, OneAt());
    if n > 0 {
      assert WellFormed(rows[n - 1]);
      ProposalsWellFormed(rows[n - 1]);
      ProposalsAreSums(rows, n - 1, |rows[n - 1].proposalsVids|, v);
    }
  }

  lemma {:induction false} ProposalsWellFormed(row: Duty)
    requires WellFormed(row)
    ensures |row.proposalsVids| == |row.proposalsFlags|
  {
  }

  /** A validator's proposals are the entries that list it, and the included ones are those with a block. */
  lemma {:induction false} ProposalsMeaning(
      d: NetworkDuties, rows: seq<Duty>, validators: Validators, lEpoch: nat, rEpoch: nat, v: ValidatorIndex)
    requires RowsWellFormed(rows, |rows|) && IsAccounting(d, rows, validators, lEpoch, rEpoch)
    ensures Get(d.proposals, v).assignedCount == |EntriesOf(ProposalLists(rows), v)|
    ensures Get(d.proposals, v).includedCount == SetSum(EntriesOf(ProposalLists(rows), v), FlagAt(rows))
  {
    hide SyncsBelow, ProposalsBelow, AreAttestations, Tight, IsSum, WellFormed, SetSum, EntriesOf, FlagAt, Get;
    CountedFromNothing(d.proposals, ProposalCounts(rows, |rows|), v);
    AllProposalsAreSums(rows, v);
  }

  // ----- The network -----

  /** Summing validator by validator is summing over all entries. */
  lemma {:induction false} SumByValidator(lists: Lists, some: set<Entry>, all: set<ValidatorIndex>, f: Entry -> int)
    requires forall e :: e in some ==> IsEntry(lists, e) && lists[e.0][e.1] in all
    ensures SetSum(all, (v: ValidatorIndex) => SetSum(OwnedBy(lists, some, v), f)) == SetSum(some, f)
    decreases |some|
  {
    hide SetSum;
    var whole := (v: ValidatorIndex) => SetSum(OwnedBy(lists, some, v), f);
    if some == {} {
      forall v ensures whole(v) == 0 { NoneOwned(lists, v, f); }
      SetSumOfConstant(all, 0, whole);
      NoneOwned(lists, 0, f);
      assert OwnedBy(lists, {}, 0) == {};
    } else {
      var e: Entry :| e in some;
      var owner, rest := lists[e.0][e.1], some - {e};
      var less := (v: ValidatorIndex) => SetSum(OwnedBy(lists, rest, v), f);
      SumByValidator(lists, rest, all, f);
      TakeOff(some, e, f);
      forall v ensures whole(v) == less(v) + OnlyAt(owner, f(e))(v) { OneLessOwned(lists, some, e, v, f); }
      SetSumAdds(all, less, OnlyAt(owner, f(e)), whole);
      SumOnlyAt(all, owner, f(e));
    }
  }

  ghost function OwnedBy(lists: Lists, some: set<Entry>, v: ValidatorIndex): set<Entry> {
    set e | e in some && IsEntry(lists, e) && lists[e.0][e.1] == v
  }

  lemma {:induction false} NoneOwned(lists: Lists, v: ValidatorIndex, f: Entry -> int)
    ensures SetSum(OwnedBy(lists, {}, v), f) == 0
  {
    assert OwnedBy(lists, {}, v) == {};
  }

  lemma {:induction false} OneLessOwned(lists: Lists, some: set<Entry>, e: Entry, v: ValidatorIndex, f: Entry -> int)
    requires e in some && IsEntry(lists, e)
    ensures SetSum(OwnedBy(lists, some, v), f)
      == SetSum(OwnedBy(lists, some - {e}, v), f) + OnlyAt(lists[e.0][e.1], f(e))(v)
  {
    if lists[e.0][e.1] == v {
      TakeOff(OwnedBy(lists, some, v), e, f);
      assert OwnedBy(lists, some, v) - {e} == OwnedBy(lists, some - {e}, v);
    } else {
      assert OwnedBy(lists, some, v) == OwnedBy(lists, some - {e}, v);
    }
  }

  lemma {:induction false} SumOverNetwork(lists: Lists, all: set<ValidatorIndex>, f: Entry -> int)
    requires forall e :: e in Entries(lists) ==> lists[e.0][e.1] in all
    ensures SetSum(all, (v: ValidatorIndex) => SetSum(EntriesOf(lists, v), f)) == SetSum(Entries(lists), f)
  {
    SumByValidator(lists, Entries(lists), all, f);
    forall v ensures EntriesOf(lists, v) == OwnedBy(lists, Entries(lists), v) {
    }
    SetSumAgrees(all, (v: ValidatorIndex) => SetSum(OwnedBy(lists, Entries(lists), v), f),
      (v: ValidatorIndex) => SetSum(EntriesOf(lists, v), f));
  }

  /** The validators of the rows and of the dictionary. */
  ghost function Everyone(lists: Lists, m: Accumulators): set<ValidatorIndex> {
    m.Keys + set e | e in Entries(lists) :: lists[e.0][e.1]
  }

  lemma {:induction false} TotalOverEveryone(m: Accumulators, all: set<ValidatorIndex>)
    requires m.Keys <= all
    ensures TotalAssigned(m) == SetSum(all, (v: ValidatorIndex) => Get(m, v).assignedCount)
    ensures TotalIncluded(m) == SetSum(all, (v: ValidatorIndex) => Get(m, v).includedCount)
  {
    SetSumWider(m.Keys, all, (v: ValidatorIndex) => Get(m, v).assignedCount);
    SetSumWider(m.Keys, all, (v: ValidatorIndex) => Get(m, v).includedCount);
  }

  /** The network's sync duties are a block for every listed member, and the missed ones are the listed misses. */
  lemma {:induction false} SyncsAreConserved(
      d: NetworkDuties, rows: seq<Duty>, validators: Validators, lEpoch: nat, rEpoch: nat)
    requires RowsWellFormed(rows, |rows|) && IsAccounting(d, rows, validators, lEpoch, rEpoch)
    ensures TotalAssigned(d.syncs) == SetSum(Entries(SyncLists(rows)), BlocksAt(rows))
    ensures TotalAssigned(d.syncs) - TotalIncluded(d.syncs) == SetSum(Entries(SyncLists(rows)), MissesAt(rows))
  {
    hide IsAccounting, WellFormed, SetSum, EntriesOf, BlocksAt, MissesAt, Get, TotalAssigned, TotalIncluded;
    var lists := SyncLists(rows);
    var all := Everyone(lists, d.syncs);
    forall v
      ensures Get(d.syncs, v).assignedCount == SetSum(EntriesOf(lists, v), BlocksAt(rows))
      ensures Get(d.syncs, v).assignedCount == Get(d.syncs, v).includedCount + SetSum(EntriesOf(lists, v), MissesAt(rows))
    {
      SyncsMeaning(d, rows, validators, lEpoch, rEpoch, v);
    }
    TotalOverEveryone(d.syncs, all);
    SumOverNetwork(lists, all, BlocksAt(rows));
    SumOverNetwork(lists, all, MissesAt(rows));
    SetSumAgrees(all, (v: ValidatorIndex) => Get(d.syncs, v).assignedCount,
      (v: ValidatorIndex) => SetSum(EntriesOf(lists, v), BlocksAt(rows)));
    SetSumAdds(all, (v: ValidatorIndex) => Get(d.syncs, v).includedCount,
      (v: ValidatorIndex) => SetSum(EntriesOf(lists, v), MissesAt(rows)),
      (v: ValidatorIndex) => Get(d.syncs, v).assignedCount);
  }
}
