/** The front-run filter on pending deposits. */
module PendingDeposits {

  type Pubkey = nat

  datatype Deposit = Deposit(pubkey: Pubkey, withdrawalCredentials: nat, amount: nat, signature: nat)

  /** `i` is the first validly signed deposit of the key among the first `n`. */
  ghost predicate IsFirstValid(deposits: seq<Deposit>, valid: Deposit -> bool, n: nat, p: Pubkey, i: nat)
    requires n <= |deposits|
  {
    && i < n && deposits[i].pubkey == p && valid(deposits[i])
    && forall j :: 0 <= j < i && deposits[j].pubkey == p ==> !valid(deposits[j])
  }

  /** The key's deposits from position `start` on, in order, valid or not. */
  function DepositsFrom(deposits: seq<Deposit>, start: nat, n: nat, p: Pubkey): seq<Deposit>
    requires n <= |deposits|
  {
    if n <= start then []
    else
      DepositsFrom(deposits, start, n - 1, p) + (if deposits[n - 1].pubkey == p then [deposits[n - 1]] else [])
  }

  type Collected = map<Pubkey, seq<Deposit>>

  /** The key's first validly signed deposit uses, or does not use, Lido credentials. */
  ghost predicate StartsWith(
      deposits: seq<Deposit>, valid: Deposit -> bool, n: nat, p: Pubkey, lido: set<nat>, isLido: bool)
    requires n <= |deposits|
  {
    exists i: nat :: IsFirstValid(deposits, valid, n, p, i) && (deposits[i].withdrawalCredentials in lido <==> isLido)
  }

  /**
   What the filter means: a wanted key maps to all its deposits from the first validly signed one on, if that one uses
   Lido credentials; every other key is absent.
   */
  ghost predicate IsFiltered(
      deposits: seq<Deposit>, valid: Deposit -> bool, n: nat, wanted: set<Pubkey>, lido: set<nat>, p: Pubkey,
      result: Collected)
    requires n <= |deposits|
  {
    && (p in result <==> (p in wanted && StartsWith(deposits, valid, n, p, lido, true)))
    && (p in result ==> forall i: nat :: IsFirstValid(deposits, valid, n, p, i) ==>
          result[p] == DepositsFrom(deposits, i, n, p))
  }

  ghost predicate IsInvalidKey(
      deposits: seq<Deposit>, valid: Deposit -> bool, n: nat, wanted: set<Pubkey>, lido: set<nat>, p: Pubkey,
      invalid: set<Pubkey>)
    requires n <= |deposits|
  {
    p in invalid <==> (p in wanted && StartsWith(deposits, valid, n, p, lido, false))
  }

  ghost predicate HasValid(deposits: seq<Deposit>, valid: Deposit -> bool, n: nat, p: Pubkey)
    requires n <= |deposits|
  {
    exists i: nat :: IsFirstValid(deposits, valid, n, p, i)
  }

  lemma {:induction false} ValidMeansFirst(deposits: seq<Deposit>, valid: Deposit -> bool, n: nat, p: Pubkey, j: nat)
    requires j < n <= |deposits| && deposits[j].pubkey == p && valid(deposits[j])
    ensures HasValid(deposits, valid, n, p)
    decreases j
  {
    if k :| 0 <= k < j && deposits[k].pubkey == p && valid(deposits[k]) {
      ValidMeansFirst(deposits, valid, n, p, k);
    } else {
      assert IsFirstValid(deposits, valid, n, p, j);
    }
  }

  /** A key that has started keeps its first deposit. */
  lemma {:induction false} Started(
      deposits: seq<Deposit>, valid: Deposit -> bool, n: nat, next: nat, p: Pubkey, lido: set<nat>, isLido: bool)
    requires n < |deposits| && next == n + 1 && HasValid(deposits, valid, n, p)
    ensures StartsWith(deposits, valid, next, p, lido, isLido) <==> StartsWith(deposits, valid, n, p, lido, isLido)
    ensures forall i: nat :: IsFirstValid(deposits, valid, next, p, i) <==> IsFirstValid(deposits, valid, n, p, i)
    ensures forall i: nat :: IsFirstValid(deposits, valid, n, p, i) ==> i < n
  {
    var first: nat :| IsFirstValid(deposits, valid, n, p, first);
    forall i: nat ensures IsFirstValid(deposits, valid, next, p, i) <==> IsFirstValid(deposits, valid, n, p, i) {
    }
  }

  /** A key that has not: the new deposit starts it just when it is the key's and validly signed. */
  lemma {:induction false} NotStarted(
      deposits: seq<Deposit>, valid: Deposit -> bool, n: nat, next: nat, p: Pubkey, lido: set<nat>, isLido: bool)
    requires n < |deposits| && next == n + 1 && !HasValid(deposits, valid, n, p)
    ensures !StartsWith(deposits, valid, n, p, lido, isLido)
    ensures StartsWith(deposits, valid, next, p, lido, isLido) <==>
      (deposits[n].pubkey == p && valid(deposits[n])
       && (deposits[n].withdrawalCredentials in lido <==> isLido))
    ensures forall i: nat :: IsFirstValid(deposits, valid, next, p, i) ==> i == n
  {
    forall j | 0 <= j < n && deposits[j].pubkey == p ensures !valid(deposits[j]) {
      if valid(deposits[j]) { ValidMeansFirst(deposits, valid, n, p, j); }
    }
    forall i: nat ensures IsFirstValid(deposits, valid, next, p, i) <==>
        (i == n && deposits[n].pubkey == p && valid(deposits[n]))
    {
    }
  }

  lemma {:induction false} StartsOneWay(
      deposits: seq<Deposit>, valid: Deposit -> bool, n: nat, p: Pubkey, lido: set<nat>)
    requires n <= |deposits|
    ensures HasValid(deposits, valid, n, p) <==>
      (StartsWith(deposits, valid, n, p, lido, true) || StartsWith(deposits, valid, n, p, lido, false))
    ensures !(StartsWith(deposits, valid, n, p, lido, true) && StartsWith(deposits, valid, n, p, lido, false))
  {
    forall i: nat, j: nat | IsFirstValid(deposits, valid, n, p, i) && IsFirstValid(deposits, valid, n, p, j)
      ensures i == j
    {
    }
  }

  /** What one deposit does to the result and to the invalid keys. */
  ghost predicate Handled(
      d: Deposit, isValid: bool, wanted: set<Pubkey>, lido: set<nat>,
      result: Collected, invalid: set<Pubkey>, result': Collected, invalid': set<Pubkey>)
  {
    if d.pubkey !in wanted then result' == result && invalid' == invalid
    else if d.pubkey in result then
      result' == result[d.pubkey := result[d.pubkey] + [d]] && invalid' == invalid
    else if d.pubkey in invalid || !isValid then result' == result && invalid' == invalid
    else if d.withdrawalCredentials in lido then result' == result[d.pubkey := [d]] && invalid' == invalid
    else result' == result && invalid' == invalid + {d.pubkey}
  }

  lemma {:induction false} HandledKeepsMeaning(
      deposits: seq<Deposit>, valid: Deposit -> bool, n: nat, wanted: set<Pubkey>, lido: set<nat>, p: Pubkey,
      result: Collected, invalid: set<Pubkey>, next: nat, result': Collected, invalid': set<Pubkey>)
    requires n < |deposits| && next == n + 1
    requires IsFiltered(deposits, valid, n, wanted, lido, p, result)
    requires IsInvalidKey(deposits, valid, n, wanted, lido, p, invalid)
    requires Handled(deposits[n], valid(deposits[n]), wanted, lido, result, invalid, result', invalid')
    ensures IsFiltered(deposits, valid, next, wanted, lido, p, result')
    ensures IsInvalidKey(deposits, valid, next, wanted, lido, p, invalid')
  {
    hide StartsWith, IsFirstValid, HasValid;
    StartsOneWay(deposits, valid, n, p, lido);
    if HasValid(deposits, valid, n, p) {
      Started(deposits, valid, n, next, p, lido, true);
      Started(deposits, valid, n, next, p, lido, false);
    } else {
      NotStarted(deposits, valid, n, next, p, lido, true);
      NotStarted(deposits, valid, n, next, p, lido, false);
    }
  }

  method CollectValidPendingDeposits(
      deposits: seq<Deposit>, wanted: set<Pubkey>, lido: set<nat>, valid: Deposit -> bool)
    returns (result: Collected)
    ensures forall p :: IsFiltered(deposits, valid, |deposits|, wanted, lido, p, result)
  {
    hide IsFiltered, IsInvalidKey;
    result := map[];
    var invalidKeys: set<Pubkey> := {};
    forall p ensures IsFiltered(deposits, valid, 0, wanted, lido, p, result)
        && IsInvalidKey(deposits, valid, 0, wanted, lido, p, invalidKeys)
    {
      NothingFiltered(deposits, valid, wanted, lido, p);
    }
    for n := 0 to |deposits|
      invariant forall p :: IsFiltered(deposits, valid, n, wanted, lido, p, result)
      invariant forall p :: IsInvalidKey(deposits, valid, n, wanted, lido, p, invalidKeys)
    {
      var d := deposits[n];
      ghost var before, invalidBefore := result, invalidKeys;
      if d.pubkey in wanted {
        if d.pubkey in result {
          result := result[d.pubkey := result[d.pubkey] + [d]];
        } else if d.pubkey !in invalidKeys && valid(d) {
          if d.withdrawalCredentials in lido {
            result := result[d.pubkey := [d]];
          } else {
            invalidKeys := invalidKeys + {d.pubkey};
          }
        }
      }
      ghost var next := n + 1;
      forall p ensures IsFiltered(deposits, valid, next, wanted, lido, p, result)
          && IsInvalidKey(deposits, valid, next, wanted, lido, p, invalidKeys)
      {
        HandledKeepsMeaning(deposits, valid, n, wanted, lido, p, before, invalidBefore, next, result, invalidKeys);
      }
    }
  }

  lemma {:induction false} NothingFiltered(
      deposits: seq<Deposit>, valid: Deposit -> bool, wanted: set<Pubkey>, lido: set<nat>, p: Pubkey)
    ensures IsFiltered(deposits, valid, 0, wanted, lido, p, map[])
    ensures IsInvalidKey(deposits, valid, 0, wanted, lido, p, {})
  {
  }

  lemma {:induction false} PrefixFirstValid(
      a: seq<Deposit>, b: seq<Deposit>, valid: Deposit -> bool, p: Pubkey, i: nat)
    requires IsFirstValid(a, valid, |a|, p, i)
    ensures IsFirstValid(a + b, valid, |a| + |b|, p, i)
  {
  }

  lemma {:induction false} PrefixDeposits(a: seq<Deposit>, b: seq<Deposit>, start: nat, n: nat, p: Pubkey)
    requires n <= |a|
    ensures DepositsFrom(a + b, start, n, p) == DepositsFrom(a, start, n, p)
  {
    if n > start { PrefixDeposits(a, b, start, n - 1, p); }
  }

  lemma {:induction false} MoreDeposits(deposits: seq<Deposit>, start: nat, m: nat, n: nat, p: Pubkey)
    requires m <= n <= |deposits|
    ensures DepositsFrom(deposits, start, m, p) <= DepositsFrom(deposits, start, n, p)
    decreases n
  {
    if m < n { MoreDeposits(deposits, start, m, n - 1, p); }
  }

  /** Once a key is decided, later deposits only add to its list: they neither admit nor exclude it. */
  lemma {:induction false} DecisionIsFinal(
      a: seq<Deposit>, b: seq<Deposit>, valid: Deposit -> bool, wanted: set<Pubkey>, lido: set<nat>, p: Pubkey,
      short: Collected, full: Collected)
    requires HasValid(a, valid, |a|, p)
    requires IsFiltered(a, valid, |a|, wanted, lido, p, short)
    requires IsFiltered(a + b, valid, |a + b|, wanted, lido, p, full)
    ensures p in short <==> p in full
    ensures p in short ==> short[p] <= full[p]
  {
    hide DepositsFrom;
    var i: nat :| IsFirstValid(a, valid, |a|, p, i);
    PrefixFirstValid(a, b, valid, p, i);
    forall j: nat | IsFirstValid(a, valid, |a|, p, j) ensures j == i { }
    forall j: nat | IsFirstValid(a + b, valid, |a + b|, p, j) ensures j == i {
    }
    PrefixDeposits(a, b, i, |a|, p);
    MoreDeposits(a + b, i, |a|, |a + b|, p);
  }
}
