/**
 The table of epoch duties. Every worker stores its epoch and then prunes the table, in three separate
 transactions; workers interleave freely.
 */
module DutiesDb {
  import opened Wrappers

  /** One row: the duties and misses of one epoch. */
  datatype Duty = Duty(
    epoch: nat,
    missedAttestationVids: seq<nat>,
    proposalsVids: seq<nat>,
    proposalsFlags: seq<bool>,
    syncsVids: seq<nat>,
    syncsMisses: seq<nat>)

  type Rows = map<nat, Duty>

  ghost function MaxOf(s: set<nat>): (m: nat)
    requires s != {}
    ensures m in s && forall x :: x in s ==> x <= m
  {
    var x :| x in s;
    if s == {x} then x
    else
      assert s == {x} + (s - {x});
      var rest := MaxOf(s - {x});
      if x < rest then rest else x
  }

  /** The greatest stored epoch; epoch 0 reads as no epoch at all. */
  ghost function MaxEpochOf(rows: Rows): Option<nat> {
    if rows.Keys == {} || MaxOf(rows.Keys) == 0 then None else Some(MaxOf(rows.Keys))
  }

  /** The epoch the retention window is counted from. */
  ghost function AnchorOf(rows: Rows, current: nat): (anchor: nat)
    ensures (exists e :: e in rows && e > 0) ==> anchor in rows && forall e :: e in rows ==> e <= anchor
    ensures (forall e :: e in rows ==> e == 0) ==> anchor == current
  {
    match MaxEpochOf(rows)
    case Some(m) => m
    case None => current
  }

  function MinEpochToKeep(anchor: nat, retention: nat): int {
    anchor - retention + 1
  }

  function PrunedFrom(rows: Rows, anchor: nat, retention: nat): Rows {
    if MinEpochToKeep(anchor, retention) <= 0 then rows
    else map e | e in rows && e >= MinEpochToKeep(anchor, retention) :: rows[e]
  }

  /** `after` is what is left of `before` when the last `retention` epochs up to the anchor are kept. */
  ghost predicate KeepsWindow(before: Rows, after: Rows, anchor: nat, retention: nat) {
    forall e :: (e in after <==> e in before && e + retention > anchor) && (e in after ==> after[e] == before[e])
  }

  lemma {:induction false} PruningKeepsWindow(rows: Rows, anchor: nat, retention: nat)
    ensures KeepsWindow(rows, PrunedFrom(rows, anchor, retention), anchor, retention)
  {
  }

  class DutiesDB {
    var rows: Rows
    const retention: nat

    constructor (retention: nat)
      requires retention > 0
      ensures rows == map[] && this.retention == retention
    {
      rows, this.retention := map[], retention;
    }

    method StoreData(epoch: nat, duty: Duty)
      modifies this
      ensures rows == old(rows)[epoch := duty]
    {
      rows := rows[epoch := duty];
    }

    method MaxEpoch() returns (r: Option<nat>)
      ensures r == MaxEpochOf(rows)
    {
      var keys := rows.Keys;
      var greatest := 0;
      while keys != {}
        invariant keys <= rows.Keys
        invariant forall e :: e in rows && e !in keys ==> e <= greatest
        invariant greatest == 0 || greatest in rows.Keys
        decreases |keys|
      {
        var e :| e in keys;
        if e > greatest { greatest := e; }
        keys := keys - {e};
      }
      return if greatest == 0 then None else Some(greatest);
    }

    method Prune(currentEpoch: nat)
      modifies this
      ensures rows == PrunedFrom(old(rows), AnchorOf(old(rows), currentEpoch), retention)
      ensures KeepsWindow(old(rows), rows, AnchorOf(old(rows), currentEpoch), retention)
    {
      PruningKeepsWindow(rows, AnchorOf(rows, currentEpoch), retention);
      var maxStoredEpoch := MaxEpoch();
      var anchorEpoch := if maxStoredEpoch.Some? then maxStoredEpoch.value else currentEpoch;
      var minEpochToKeep := anchorEpoch - retention + 1;
      if minEpochToKeep <= 0 {
        return;
      }
      rows := map e | e in rows && e >= minEpochToKeep :: rows[e];
    }

    method StoreEpoch(epoch: nat, duty: Duty)
      modifies this
      ensures var stored := old(rows)[epoch := duty];
        && rows == PrunedFrom(stored, AnchorOf(stored, epoch), retention)
        && KeepsWindow(stored, rows, AnchorOf(stored, epoch), retention)
    {
      StoreData(epoch, duty);
      Prune(epoch);
    }
  }

  // ----- Workers -----

  /** Where a worker is between its transactions; `Read` remembers the anchor it has read. */
  datatype Pc = Start | Stored | Read(anchor: nat) | Done

  datatype World = World(rows: Rows, pcs: seq<Pc>)

  /** The work of a checkpoint: a row for each of some distinct epochs, and the retention setting. */
  datatype Checkpoint = Checkpoint(jobs: seq<Duty>, initial: Rows, retention: nat) {
    ghost predicate Valid() {
      && jobs != [] && retention > 0
      && forall i, j :: 0 <= i < j < |jobs| ==> jobs[i].epoch != jobs[j].epoch
    }

    function Epochs(): set<nat> {
      initial.Keys + set i | 0 <= i < |jobs| :: jobs[i].epoch
    }

    ghost function Greatest(): nat
      requires Valid()
    {
      assert jobs[0].epoch in Epochs();
      MaxOf(Epochs())
    }

    /** The window that must survive: the last `retention` epochs. */
    ghost predicate InWindow(e: nat)
      requires Valid()
    {
      e + retention > Greatest()
    }

    /** The table without any pruning: every job's row over the initial ones. */
    ghost predicate HoldsRow(e: nat, row: Duty) {
      (exists i :: 0 <= i < |jobs| && jobs[i] == row && row.epoch == e)
      || (e in initial && initial[e] == row && forall i :: 0 <= i < |jobs| ==> jobs[i].epoch != e)
    }
  }

  ghost predicate IsInitial(c: Checkpoint, w: World) {
    w.rows == c.initial && |w.pcs| == |c.jobs| && forall i :: 0 <= i < |w.pcs| ==> w.pcs[i] == Start
  }

  /** Worker `i` makes its next transaction. */
  ghost predicate Step(c: Checkpoint, i: nat, w: World, w': World) {
    && i < |w.pcs| == |c.jobs|
    && match w.pcs[i]
       case Start => w' == World(w.rows[c.jobs[i].epoch := c.jobs[i]], w.pcs[i := Stored])
       case Stored => w' == World(w.rows, w.pcs[i := Read(AnchorOf(w.rows, c.jobs[i].epoch))])
       case Read(anchor) => w' == World(PrunedFrom(w.rows, anchor, c.retention), w.pcs[i := Done])
       case Done => false
  }

  /** A run under any schedule. */
  ghost predicate IsRun(c: Checkpoint, worlds: seq<World>, schedule: seq<nat>) {
    && |worlds| == |schedule| + 1 && IsInitial(c, worlds[0])
    && forall k :: 0 <= k < |schedule| ==> Step(c, schedule[k], worlds[k], worlds[k + 1])
  }

  ghost predicate AllDone(w: World) {
    forall i :: 0 <= i < |w.pcs| ==> w.pcs[i] == Done
  }

  /** The right row is there for every epoch of the window that has been stored so far, and no wrong row is. */
  ghost predicate RowsRight(c: Checkpoint, w: World)
    requires c.Valid() && |w.pcs| == |c.jobs|
  {
    && (forall e :: e in w.rows ==> e in c.Epochs())
    && (forall i :: 0 <= i < |c.jobs| && w.pcs[i] != Start ==>
          && (c.InWindow(c.jobs[i].epoch) ==> c.jobs[i].epoch in w.rows)
          && (c.jobs[i].epoch in w.rows ==> w.rows[c.jobs[i].epoch] == c.jobs[i]))
    && (forall e :: e in c.initial && c.InWindow(e) ==> e in w.rows)
    && (forall e :: e in w.rows && (forall i :: 0 <= i < |c.jobs| && c.jobs[i].epoch == e ==> w.pcs[i] == Start) ==>
          e in c.initial && w.rows[e] == c.initial[e])
  }

  /** A worker that is going to prune with the final anchor. */
  ghost predicate WillClean(c: Checkpoint, pc: Pc)
    requires c.Valid()
  {
    pc == Start || pc == Stored || pc == Read(c.Greatest())
  }

  ghost predicate Inv(c: Checkpoint, w: World)
    requires c.Valid()
  {
    && |w.pcs| == |c.jobs| && RowsRight(c, w)
    && (forall i :: 0 <= i < |w.pcs| && w.pcs[i].Read? ==> w.pcs[i].anchor <= c.Greatest())
    && ((exists e :: e in w.rows && !c.InWindow(e)) ==> exists i :: 0 <= i < |w.pcs| && WillClean(c, w.pcs[i]))
  }

  lemma {:induction false} InitialInv(c: Checkpoint, w: World)
    requires c.Valid() && IsInitial(c, w)
    ensures Inv(c, w)
  {
    assert WillClean(c, w.pcs[0]);
  }

  /** Anchors never pass the greatest epoch, and once that epoch is stored it is the anchor. */
  lemma {:induction false} AnchorBounds(c: Checkpoint, w: World, i: nat)
    requires c.Valid() && Inv(c, w) && i < |c.jobs|
    ensures AnchorOf(w.rows, c.jobs[i].epoch) <= c.Greatest()
    ensures c.Greatest() in w.rows ==> AnchorOf(w.rows, c.jobs[i].epoch) == c.Greatest()
  {
    assert c.jobs[i].epoch in c.Epochs();
  }

  /** The greatest epoch is stored unless its worker has not started. */
  lemma {:induction false} GreatestStoredOrPending(c: Checkpoint, w: World) returns (j: nat)
    requires c.Valid() && Inv(c, w) && c.Greatest() !in w.rows
    ensures j < |c.jobs| && w.pcs[j] == Start
  {
    assert c.InWindow(c.Greatest());
    assert c.Greatest() !in c.initial;
    assert c.Greatest() in c.Epochs();
    j :| 0 <= j < |c.jobs| && c.jobs[j].epoch == c.Greatest();
  }

  lemma {:induction false} StoringKeepsRows(c: Checkpoint, i: nat, w: World)
    requires c.Valid() && |w.pcs| == |c.jobs| && RowsRight(c, w) && i < |c.jobs| && w.pcs[i] == Start
    ensures RowsRight(c, World(w.rows[c.jobs[i].epoch := c.jobs[i]], w.pcs[i := Stored]))
  {
    assert c.jobs[i].epoch in c.Epochs();
  }

  lemma {:induction false} ReadingKeepsRows(c: Checkpoint, i: nat, w: World, anchor: nat)
    requires c.Valid() && |w.pcs| == |c.jobs| && RowsRight(c, w) && i < |c.jobs| && w.pcs[i] == Stored
    ensures RowsRight(c, World(w.rows, w.pcs[i := Read(anchor)]))
  {
    hide Checkpoint.InWindow, Checkpoint.Epochs;
  }

  lemma {:induction false} PruningSparesWindow(c: Checkpoint, rows: Rows, anchor: nat)
    requires c.Valid() && anchor <= c.Greatest()
    ensures forall e :: e in PrunedFrom(rows, anchor, c.retention) ==>
      e in rows && PrunedFrom(rows, anchor, c.retention)[e] == rows[e]
    ensures forall e :: e in rows && c.InWindow(e) ==> e in PrunedFrom(rows, anchor, c.retention)
  {
  }

  lemma {:induction false} PruningKeepsRows(c: Checkpoint, i: nat, w: World, anchor: nat)
    requires c.Valid() && |w.pcs| == |c.jobs| && RowsRight(c, w) && i < |c.jobs| && w.pcs[i] == Read(anchor)
    requires anchor <= c.Greatest()
    ensures RowsRight(c, World(PrunedFrom(w.rows, anchor, c.retention), w.pcs[i := Done]))
  {
    hide Checkpoint.InWindow, Checkpoint.Epochs, PrunedFrom;
    PruningSparesWindow(c, w.rows, anchor);
  }

  lemma {:induction false} StepKeepsRows(c: Checkpoint, i: nat, w: World, w': World)
    requires c.Valid() && Inv(c, w) && Step(c, i, w, w')
    ensures RowsRight(c, w')
  {
    hide RowsRight;
    match w.pcs[i]
    case Start => StoringKeepsRows(c, i, w);
    case Stored => ReadingKeepsRows(c, i, w, AnchorOf(w.rows, c.jobs[i].epoch));
    case Read(anchor) => PruningKeepsRows(c, i, w, anchor);
  }

  lemma {:induction false} StepKeepsCleaner(c: Checkpoint, i: nat, w: World, w': World, e: nat)
    requires c.Valid() && Inv(c, w) && Step(c, i, w, w') && e in w'.rows && !c.InWindow(e)
    ensures exists k :: 0 <= k < |w'.pcs| && WillClean(c, w'.pcs[k])
  {
    hide RowsRight;
    match w.pcs[i]
    case Start =>
      assert WillClean(c, w'.pcs[i]);
    case Stored =>
      AnchorBounds(c, w, i);
      if c.Greatest() in w.rows {
        assert WillClean(c, w'.pcs[i]);
      } else {
        var j := GreatestStoredOrPending(c, w);
        assert WillClean(c, w'.pcs[j]);
      }
    case Read(anchor) =>
      assert e in w.rows && anchor != c.Greatest();
      var k :| 0 <= k < |w.pcs| && WillClean(c, w.pcs[k]);
      assert WillClean(c, w'.pcs[k]);
  }

  lemma {:induction false} StepKeepsInv(c: Checkpoint, i: nat, w: World, w': World)
    requires c.Valid() && Inv(c, w) && Step(c, i, w, w')
    ensures Inv(c, w')
  {
    hide RowsRight;
    StepKeepsRows(c, i, w, w');
    if w.pcs[i] == Stored { AnchorBounds(c, w, i); }
    if e :| e in w'.rows && !c.InWindow(e) {
      StepKeepsCleaner(c, i, w, w', e);
    }
  }

  lemma {:induction false} RunKeepsInv(c: Checkpoint, worlds: seq<World>, schedule: seq<nat>, k: nat)
    requires c.Valid() && IsRun(c, worlds, schedule) && k < |worlds|
    ensures Inv(c, worlds[k])
    decreases k
  {
    hide Inv, Step, IsInitial;
    if k == 0 {
      InitialInv(c, worlds[0]);
    } else {
      RunKeepsInv(c, worlds, schedule, k - 1);
      assert Step(c, schedule[k - 1], worlds[k - 1], worlds[k - 1 + 1]);
      StepKeepsInv(c, schedule[k - 1], worlds[k - 1], worlds[k]);
    }
  }

  /** No transaction of any interleaving ever deletes an epoch of the final window. */
  lemma {:induction false} WindowIsNeverDeleted(
      c: Checkpoint, worlds: seq<World>, schedule: seq<nat>, k: nat, e: nat)
    requires c.Valid() && IsRun(c, worlds, schedule) && k < |schedule|
    requires e in worlds[k].rows && e + c.retention > c.Greatest()
    ensures e in worlds[k + 1].rows
  {
    RunKeepsInv(c, worlds, schedule, k);
    assert Step(c, schedule[k], worlds[k], worlds[k + 1]);
  }

  /** When all workers are done, the table is the window of everything there was and everything stored. */
  lemma {:induction false} FinalTable(c: Checkpoint, worlds: seq<World>, schedule: seq<nat>, e: nat)
    requires c.Valid() && IsRun(c, worlds, schedule) && AllDone(worlds[|schedule|])
    ensures e in worlds[|schedule|].rows <==> e in c.Epochs() && e + c.retention > c.Greatest()
    ensures e in worlds[|schedule|].rows ==> c.HoldsRow(e, worlds[|schedule|].rows[e])
  {
    var w := worlds[|schedule|];
    RunKeepsInv(c, worlds, schedule, |schedule|);
    if e in w.rows && !(exists i :: 0 <= i < |c.jobs| && c.jobs[i].epoch == e) {
      assert w.rows[e] == c.initial[e];
    }
  }

  lemma {:induction false} RowIsDetermined(c: Checkpoint, e: nat, a: Duty, b: Duty)
    requires c.Valid() && c.HoldsRow(e, a) && c.HoldsRow(e, b)
    ensures a == b
  {
  }

  /** The order in which workers are scheduled does not matter. */
  lemma {:induction false} ScheduleDoesNotMatter(
      c: Checkpoint, worlds: seq<World>, schedule: seq<nat>, worlds': seq<World>, schedule': seq<nat>)
    requires c.Valid() && IsRun(c, worlds, schedule) && IsRun(c, worlds', schedule')
    requires AllDone(worlds[|schedule|]) && AllDone(worlds'[|schedule'|])
    ensures worlds[|schedule|].rows == worlds'[|schedule'|].rows
  {
    hide c.HoldsRow, Step, IsInitial;
    var rows, rows' := worlds[|schedule|].rows, worlds'[|schedule'|].rows;
    forall e: nat ensures e in rows <==> e in rows' {
      FinalTable(c, worlds, schedule, e);
      FinalTable(c, worlds', schedule', e);
    }
    forall e: nat | e in rows ensures rows[e] == rows'[e] {
      FinalTable(c, worlds, schedule, e);
      FinalTable(c, worlds', schedule', e);
      RowIsDetermined(c, e, rows[e], rows'[e]);
    }
  }

  /** A worker that is not interrupted does what `store_epoch` does in one call. */
  lemma {:induction false} UninterruptedWorker(c: Checkpoint, i: nat, w0: World, w1: World, w2: World, w3: World)
    requires i < |w0.pcs| && w0.pcs[i] == Start
    requires Step(c, i, w0, w1) && Step(c, i, w1, w2) && Step(c, i, w2, w3)
    ensures var job := c.jobs[i];
      var stored := w0.rows[job.epoch := job];
      w3.rows == PrunedFrom(stored, AnchorOf(stored, job.epoch), c.retention) && w3.pcs == w0.pcs[i := Done]
  {
    var job := c.jobs[i];
    assert w1 == World(w0.rows[job.epoch := job], w0.pcs[i := Stored]);
    assert w2 == World(w1.rows, w1.pcs[i := Read(AnchorOf(w1.rows, job.epoch))]);
  }
}
