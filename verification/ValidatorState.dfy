/** The consensus-layer view of a validator and the limits derived from it. Amounts are in Gwei. */
module ValidatorState {

  const FAR_FUTURE_EPOCH := 0xFFFF_FFFF_FFFF_FFFF
  const MAX_SEED_LOOKAHEAD := 4
  const EFFECTIVE_BALANCE_INCREMENT := 1_000_000_000
  const MAX_EFFECTIVE_BALANCE := 32_000_000_000
  const MAX_EFFECTIVE_BALANCE_ELECTRA := 2048_000_000_000
  const MIN_ACTIVATION_BALANCE := 32_000_000_000
  const CHURN_LIMIT_QUOTIENT := 65536
  const MIN_PER_EPOCH_CHURN_LIMIT_ELECTRA := 128_000_000_000
  const MAX_PER_EPOCH_ACTIVATION_EXIT_CHURN_LIMIT := 256_000_000_000

  /** The prefix of the withdrawal credentials: 0x00, 0x01 or 0x02. */
  datatype Credentials = Bls | Eth1 | Compounding

  datatype ValidatorState = ValidatorState(
    credentials: Credentials,
    effectiveBalance: nat,
    slashed: bool,
    activationEpoch: nat,
    exitEpoch: nat,
    withdrawableEpoch: nat)

  function Min(a: int, b: int): int { if b < a then b else a }

  function Max(a: int, b: int): int { if b > a then b else a }

  predicate IsActive(v: ValidatorState, epoch: int) {
    v.activationEpoch <= epoch < v.exitEpoch
  }

  predicate IsOnExit(v: ValidatorState) {
    v.exitEpoch != FAR_FUTURE_EPOCH
  }

  function GetMaxEffectiveBalance(v: ValidatorState): nat {
    if v.credentials.Compounding? then MAX_EFFECTIVE_BALANCE_ELECTRA else MIN_ACTIVATION_BALANCE
  }

  predicate HasExecutionCredential(v: ValidatorState) {
    v.credentials.Compounding? || v.credentials.Eth1?
  }

  predicate IsFullyWithdrawable(v: ValidatorState, balance: int, epoch: nat) {
    HasExecutionCredential(v) && v.withdrawableEpoch <= epoch && balance > 0
  }

  predicate IsPartiallyWithdrawable(v: ValidatorState, balance: int) {
    && HasExecutionCredential(v)
    && v.effectiveBalance == GetMaxEffectiveBalance(v)
    && balance > GetMaxEffectiveBalance(v)
  }

  function ComputeActivationExitEpoch(refEpoch: nat): nat {
    refEpoch + 1 + MAX_SEED_LOOKAHEAD
  }

  function GetBalanceChurnLimit(totalActiveBalance: nat): nat {
    var churn := Max(MIN_PER_EPOCH_CHURN_LIMIT_ELECTRA, totalActiveBalance / CHURN_LIMIT_QUOTIENT);
    churn - churn % EFFECTIVE_BALANCE_INCREMENT
  }

  function GetActivationExitChurnLimit(totalActiveBalance: nat): nat {
    Min(MAX_PER_EPOCH_ACTIVATION_EXIT_CHURN_LIMIT, GetBalanceChurnLimit(totalActiveBalance))
  }

  /**
     The churn is a whole number of increments between the two protocol limits: the stake's share in between, rounded
     down, and otherwise the nearer limit.
   */
  lemma {:induction false} ChurnLimitBounds(totalActiveBalance: nat)
    ensures MIN_PER_EPOCH_CHURN_LIMIT_ELECTRA <= GetActivationExitChurnLimit(totalActiveBalance)
    ensures GetActivationExitChurnLimit(totalActiveBalance) <= MAX_PER_EPOCH_ACTIVATION_EXIT_CHURN_LIMIT
    ensures GetActivationExitChurnLimit(totalActiveBalance) % EFFECTIVE_BALANCE_INCREMENT == 0
    ensures var limit, share := GetActivationExitChurnLimit(totalActiveBalance), totalActiveBalance / 65536;
      if share <= 128_000_000_000 then limit == 128_000_000_000
      else if share >= 256_000_000_000 then limit == 256_000_000_000
      else limit <= share < limit + 1_000_000_000
  {
    var churn := Max(MIN_PER_EPOCH_CHURN_LIMIT_ELECTRA, totalActiveBalance / CHURN_LIMIT_QUOTIENT);
    var whole := churn / EFFECTIVE_BALANCE_INCREMENT;
    assert churn - churn % EFFECTIVE_BALANCE_INCREMENT == whole * EFFECTIVE_BALANCE_INCREMENT;
    assert whole >= 128;
  }
}
