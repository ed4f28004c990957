/**
 The predicted exit epoch. The oracle computes it once for the summed balance; the consensus layer runs
 compute_exit_epoch_and_update_churn (Electra, beacon-chain.md) exit by exit. Both give the same epoch.
 */
module ExitChurn {
  import opened Arithmetic
  import opened ValidatorState

  datatype ChurnState = ChurnState(earliestExitEpoch: nat, exitBalanceToConsume: nat)

  /** What stays fixed while exits are processed: the epoch of the report and the active stake. */
  datatype Context = Context(refEpoch: nat, totalActiveBalance: nat) {
    function Churn(): (r: nat)
      ensures r > 0
    {
      ChurnLimitBounds(totalActiveBalance);
      GetActivationExitChurnLimit(totalActiveBalance)
    }
  }

  /** The first epoch in which exits can be queued, and the balance that still fits into it. */
  function FirstEpoch(c: Context, state: ChurnState): nat {
    Max(state.earliestExitEpoch, ComputeActivationExitEpoch(c.refEpoch))
  }

  function FirstEpochBalance(c: Context, state: ChurnState): nat {
    if state.earliestExitEpoch < FirstEpoch(c, state) then c.Churn() else state.exitBalanceToConsume
  }

  function AdditionalEpochs(balanceToProcess: nat, churn: nat): nat
    requires balanceToProcess > 0 && churn > 0
  {
    (balanceToProcess - 1) / churn + 1
  }

  /** The oracle's computation. */
  function ComputeExitEpoch(c: Context, state: ChurnState, exitBalance: nat): nat {
    var toConsume := FirstEpochBalance(c, state);
    if exitBalance > toConsume
    then FirstEpoch(c, state) + AdditionalEpochs(exitBalance - toConsume, c.Churn())
    else FirstEpoch(c, state)
  }

  /** The consensus layer's version, which also updates the state. */
  function ComputeExitEpochAndUpdateChurn(c: Context, state: ChurnState, exitBalance: nat): ChurnState {
    var toConsume := FirstEpochBalance(c, state);
    if exitBalance > toConsume then
      var additional := AdditionalEpochs(exitBalance - toConsume, c.Churn());
      AdditionalEpochsCover(exitBalance - toConsume, c.Churn());
      ChurnState(FirstEpoch(c, state) + additional, toConsume + additional * c.Churn() - exitBalance)
    else
      ChurnState(FirstEpoch(c, state), toConsume - exitBalance)
  }

  /** The exits of a list, one by one. */
  function ProcessExits(c: Context, state: ChurnState, exits: seq<nat>): ChurnState {
    if exits == [] then state
    else ComputeExitEpochAndUpdateChurn(c, ProcessExits(c, state, exits[..|exits| - 1]), exits[|exits| - 1])
  }

  function SumOf(exits: seq<nat>): nat {
    if exits == [] then 0 else SumOf(exits[..|exits| - 1]) + exits[|exits| - 1]
  }

  lemma {:induction false} AdditionalEpochsCover(balance: nat, churn: nat)
    requires balance > 0 && churn > 0
    ensures AdditionalEpochs(balance, churn) * churn >= balance > (AdditionalEpochs(balance, churn) - 1) * churn
  {
    var q, r := (balance - 1) / churn, (balance - 1) % churn;
    assert balance - 1 == q * churn + r;
    assert (q + 1) * churn == q * churn + churn;
  }

  /** `k` epochs after the first are needed, and enough, for `total`. */
  ghost predicate LeastEpochs(first: nat, churn: nat, total: nat, k: nat) {
    first + k * churn >= total && (k > 0 ==> first + (k - 1) * churn < total)
  }

  lemma {:induction false} LeastEpochsUnique(first: nat, churn: nat, total: nat, j: nat, k: nat)
    requires churn > 0 && LeastEpochs(first, churn, total, j) && LeastEpochs(first, churn, total, k)
    ensures j == k
  {
    if j < k { Grows(j, k - 1, churn); }
    if k < j { Grows(k, j - 1, churn); }
  }

  lemma {:induction false} ExitEpochIsLeast(c: Context, state: ChurnState, exitBalance: nat)
    ensures ComputeExitEpoch(c, state, exitBalance) >= FirstEpoch(c, state)
    ensures LeastEpochs(FirstEpochBalance(c, state), c.Churn(), exitBalance,
      ComputeExitEpoch(c, state, exitBalance) - FirstEpoch(c, state))
  {
    var toConsume := FirstEpochBalance(c, state);
    if exitBalance > toConsume {
      AdditionalEpochsCover(exitBalance - toConsume, c.Churn());
    }
  }

  /** No earlier epoch can hold the exits: its accumulated churn is too small; the computed epoch's is enough. */
  lemma {:induction false} ExitEpochIsEarliest(c: Context, state: ChurnState, exitBalance: nat, epoch: nat)
    requires epoch >= FirstEpoch(c, state)
    ensures ComputeExitEpoch(c, state, exitBalance) >= FirstEpoch(c, state)
    ensures epoch >= ComputeExitEpoch(c, state, exitBalance) <==>
      FirstEpochBalance(c, state) + (epoch - FirstEpoch(c, state)) * c.Churn() >= exitBalance
  {
    ExitEpochIsLeast(c, state, exitBalance);
    var k := ComputeExitEpoch(c, state, exitBalance) - FirstEpoch(c, state);
    var n := epoch - FirstEpoch(c, state);
    if n >= k { Grows(k, n, c.Churn()); } else { Grows(n, k - 1, c.Churn()); }
  }

  /**
     In figures: exits start five epochs after the report at the earliest. There a full churn is free, unless exits
     already reach further; then it is what they have left over in their last epoch.
   */
  lemma {:induction false} ExitEpochInFigures(c: Context, state: ChurnState, exitBalance: nat, epoch: nat)
    ensures var churn, start := GetActivationExitChurnLimit(c.totalActiveBalance), c.refEpoch + 5;
      var computed := ComputeExitEpoch(c, state, exitBalance);
      if state.earliestExitEpoch < start then
        computed >= start && (epoch >= start ==>
          (epoch >= computed <==> (epoch - start + 1) * churn >= exitBalance))
      else
        computed >= state.earliestExitEpoch && (epoch >= state.earliestExitEpoch ==>
          (epoch >= computed <==>
           state.exitBalanceToConsume + (epoch - state.earliestExitEpoch) * churn >= exitBalance))
  {
    if epoch >= FirstEpoch(c, state) {
      ExitEpochIsEarliest(c, state, exitBalance, epoch);
      Distribute(c.Churn(), epoch - FirstEpoch(c, state), 1);
    } else {
      ExitEpochIsEarliest(c, state, exitBalance, FirstEpoch(c, state));
    }
  }

  /** Where the queue stands after `total`, relative to where it started. */
  ghost predicate QueueAt(c: Context, state: ChurnState, total: nat, later: ChurnState) {
    && later.earliestExitEpoch >= FirstEpoch(c, state)
    && var k := later.earliestExitEpoch - FirstEpoch(c, state);
       && LeastEpochs(FirstEpochBalance(c, state), c.Churn(), total, k)
       && later.exitBalanceToConsume == FirstEpochBalance(c, state) + k * c.Churn() - total
  }

  lemma {:induction false} FirstExit(c: Context, state: ChurnState, exit: nat)
    ensures QueueAt(c, state, exit, ComputeExitEpochAndUpdateChurn(c, state, exit))
  {
    ExitEpochIsLeast(c, state, exit);
  }

  lemma {:induction false} NextExit(c: Context, state: ChurnState, total: nat, later: ChurnState, exit: nat)
    requires QueueAt(c, state, total, later)
    ensures QueueAt(c, state, total + exit, ComputeExitEpochAndUpdateChurn(c, later, exit))
  {
    var first, churn := FirstEpochBalance(c, state), c.Churn();
    var k := later.earliestExitEpoch - FirstEpoch(c, state);
    assert FirstEpoch(c, later) == later.earliestExitEpoch && FirstEpochBalance(c, later) == later.exitBalanceToConsume;
    if exit > later.exitBalanceToConsume {
      var missing := exit - later.exitBalanceToConsume;
      var more := AdditionalEpochs(missing, churn);
      AdditionalEpochsCover(missing, churn);
      assert (k + more) * churn == k * churn + more * churn;
      assert (k + more - 1) * churn == k * churn + (more - 1) * churn;
    }
  }

  lemma {:induction false} QueueAfterExits(c: Context, state: ChurnState, exits: seq<nat>)
    requires exits != []
    ensures QueueAt(c, state, SumOf(exits), ProcessExits(c, state, exits))
  {
    var front, last := exits[..|exits| - 1], exits[|exits| - 1];
    if front == [] {
      FirstExit(c, state, last);
    } else {
      QueueAfterExits(c, state, front);
      NextExit(c, state, SumOf(front), ProcessExits(c, state, front), last);
    }
  }

  /** One computation on the sum gives the epoch the whole queue of exits ends in. */
  lemma {:induction false} AggregateEqualsQueue(c: Context, state: ChurnState, exits: seq<nat>)
    requires exits != []
    ensures ComputeExitEpoch(c, state, SumOf(exits)) == ProcessExits(c, state, exits).earliestExitEpoch
  {
    QueueAfterExits(c, state, exits);
    ExitEpochIsLeast(c, state, SumOf(exits));
    LeastEpochsUnique(FirstEpochBalance(c, state), c.Churn(), SumOf(exits),
      ComputeExitEpoch(c, state, SumOf(exits)) - FirstEpoch(c, state),
      ProcessExits(c, state, exits).earliestExitEpoch - FirstEpoch(c, state));
  }
}
