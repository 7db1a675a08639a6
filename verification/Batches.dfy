/**
 When transactions that were each checked against one state also execute one after the
 other on it. The pool validates every candidate on its own (transaction_pool.go); the
 chain then executes the chosen ones in sequence (blockchain.go).
 */
module Batches {
  import opened Base
  import opened Sums
  import opened Ledger
  import opened Conservation
  import opened OrderIndependence
  import opened Sorting

  /** What the pool checks of a candidate: the sender's next nonce, and enough balance. */
  predicate Fundable(m: Accounts, tx: Tx) {
    tx.nonce == Plus(GetAccount(m, tx.from).nonce, 1) && Due(tx) <= GetAccount(m, tx.from).balance
  }

  /** What the pool does not check: a known type, an amount where one is due, and a
      registered validator to delegate to. */
  predicate Executable(r: Registry, tx: Tx) {
    match tx.kind
    case Participation => true
    case Transfer => true
    case RegisterValidator => tx.value != 0
    case Delegate => tx.value != 0 && tx.to in r
    case Unknown(_) => false
  }

  ghost predicate DistinctSenders(txs: seq<Tx>) {
    forall i, j :: 0 <= i < j < |txs| ==> txs[i].from != txs[j].from
  }

  ghost predicate AppliesInEveryOrder(w: World, txs: seq<Tx>) {
    forall s :: multiset(s) == multiset(txs) ==> ExecuteBlock(w, s).error.None?
  }

  /** A single transaction executes exactly when it passes both sets of checks. */
  lemma ExecutesIff(w: World, tx: Tx)
    ensures ExecuteTx(w, tx).error.None? <==> Fundable(w.accounts, tx) && Executable(w.registry, tx)
  {
  }

  /** With all balances fitting in a word, a payment cannot overflow its recipient. */
  lemma PaymentFits(m: Accounts, tx: Tx, a: Address)
    requires SumMap(m, BalanceOf) < WORD && Fundable(m, tx) && !DueWraps(tx) && Pays(tx, a)
    ensures GetAccount(m, a).balance + tx.value < WORD
  {
    SumMapNonNegative(m, BalanceOf);
    if a in m {
      SumMapTwo(m, a, tx.from, BalanceOf);
    }
    if tx.from in m {
      SumMapTwo(m, tx.from, a, BalanceOf);
    }
  }

  lemma BalancesShrink(w: World, tx: Tx)
    requires SumMap(w.accounts, BalanceOf) < WORD && CheckTransaction(w.accounts, tx).None? && !DueWraps(tx)
    ensures SumMap(MoveFunds(w.accounts, tx), BalanceOf) < WORD
  {
    hide MoveFunds, Wrap;
    BalanceLoss(w, tx);
    PlusWraps(tx.value, tx.fee);
  }

  /** Executing one transaction does not hurt another sender's candidate. */
  lemma StaysFundable(m: Accounts, tx: Tx, other: Tx)
    requires SumMap(m, BalanceOf) < WORD && CheckTransaction(m, tx).None? && !DueWraps(tx)
    requires Fundable(m, other) && other.from != tx.from
    ensures Fundable(MoveFunds(m, tx), other)
  {
    hide MoveFunds, CheckTransaction, Wrap;
    var acc := GetAccount(m, other.from);
    assert Fundable(m, tx) by { PassesChecks(m, tx); }
    StepAccount(m, tx, other.from);
    WrapOfWord(acc.balance);
    WrapOfWord(acc.nonce);
    if Pays(tx, other.from) {
      PaymentFits(m, tx, other.from);
      WrapOfWord(acc.balance + tx.value);
    }
  }

  lemma PassesChecks(m: Accounts, tx: Tx)
    requires CheckTransaction(m, tx).None?
    ensures Fundable(m, tx)
  {
  }

  lemma StaysExecutable(r: Registry, tx: Tx, other: Tx)
    requires UpdateRegistry(r, tx).Some? && Executable(r, other)
    ensures Executable(UpdateRegistry(r, tx).value, other)
  {
  }

  /** Candidates of pairwise different senders execute in full, in the order given. */
  lemma {:induction false} DistinctSendersApply(w: World, txs: seq<Tx>)
    requires SumMap(w.accounts, BalanceOf) < WORD
    requires forall tx :: tx in txs ==> Fundable(w.accounts, tx) && Executable(w.registry, tx) && !DueWraps(tx)
    requires DistinctSenders(txs)
    ensures ExecuteBlock(w, txs).error.None?
    decreases |txs|
  {
    hide MoveFunds, UpdateRegistry, CheckTransaction, Fundable, Executable, DueWraps;
    if txs != [] {
      var tx, rest := txs[0], txs[1..];
      assert tx in txs;
      ExecutesIff(w, tx);
      var w' := ExecuteTx(w, tx).world;
      BalancesShrink(w, tx);
      forall other | other in rest
        ensures Fundable(w'.accounts, other) && Executable(w'.registry, other) && !DueWraps(other)
      {
        assert other in txs && other.from != tx.from;
        StaysFundable(w.accounts, tx, other);
        StaysExecutable(w.registry, tx, other);
      }
      DistinctSendersApply(w', rest);
    }
  }

  /** Once an account has moved past a nonce, no stretch that applies reuses it first. */
  lemma {:induction false} StaleNonceNeverApplies(m: Accounts, txs: seq<Tx>, a: Address)
    requires AllApply(m, txs)
    requires forall tx :: tx in txs && tx.from == a ==> tx.nonce == GetAccount(m, a).nonce
    ensures forall tx :: tx in txs ==> tx.from != a
    decreases |txs|
  {
    hide MoveFunds, CheckTransaction;
    if txs != [] {
      assert txs[0] in txs;
      assert Fundable(m, txs[0]) by { PassesChecks(m, txs[0]); }
      StepAccount(m, txs[0], a);
      WrapOfWord(GetAccount(m, a).nonce);
      StaleNonceNeverApplies(MoveFunds(m, txs[0]), txs[1..], a);
      assert txs == [txs[0]] + txs[1..];
    }
  }

  /** The nonce half of `Fundable`, for senders that have not sent yet. */
  ghost predicate NextNonce(m: Accounts, tx: Tx) {
    tx.nonce == Plus(GetAccount(m, tx.from).nonce, 1)
  }

  lemma NoncesFresh(m: Accounts, tx: Tx, rest: seq<Tx>)
    requires CheckTransaction(m, tx).None?
    requires forall other :: other in rest ==> NextNonce(m, other) && other.from != tx.from
    ensures forall other :: other in rest ==> NextNonce(MoveFunds(m, tx), other)
  {
    hide MoveFunds, CheckTransaction, Wrap;
    forall other | other in rest ensures NextNonce(MoveFunds(m, tx), other) {
      StepAccount(m, tx, other.from);
      WrapOfWord(GetAccount(m, other.from).nonce);
    }
  }

  /** Conversely, candidates checked against one state that apply in full have pairwise
      different senders. */
  lemma {:induction false} AppliedSendersDistinct(m: Accounts, txs: seq<Tx>)
    requires AllApply(m, txs)
    requires forall tx :: tx in txs ==> NextNonce(m, tx)
    ensures DistinctSenders(txs)
    decreases |txs|
  {
    hide MoveFunds, CheckTransaction, Wrap;
    if txs != [] {
      var tx, rest := txs[0], txs[1..];
      var m' := MoveFunds(m, tx);
      assert tx in txs && txs == [tx] + rest;
      StepAccount(m, tx, tx.from);
      forall other | other in rest ensures NextNonce(m, other) { assert other in txs; }
      forall other | other in rest && other.from == tx.from ensures other.nonce == GetAccount(m', tx.from).nonce {
        assert NextNonce(m, other);
      }
      StaleNonceNeverApplies(m', rest, tx.from);
      NoncesFresh(m, tx, rest);
      AppliedSendersDistinct(m', rest);
    }
  }

  /** For candidates that the pool found fundable, with executable types and targets: the
      block applies exactly when no sender occurs twice. */
  lemma {:induction false} BatchAppliesIffDistinct(w: World, txs: seq<Tx>)
    requires SumMap(w.accounts, BalanceOf) < WORD
    requires forall tx :: tx in txs ==> Fundable(w.accounts, tx) && Executable(w.registry, tx) && !DueWraps(tx)
    ensures ExecuteBlock(w, txs).error.None? <==> DistinctSenders(txs)
  {
    hide ExecuteBlock, Fundable, Executable, DueWraps, AllApply, DistinctSenders;
    if DistinctSenders(txs) {
      DistinctSendersApply(w, txs);
    }
    if ExecuteBlock(w, txs).error.None? {
      ExecuteBlockAccounts(w, txs);
      forall tx | tx in txs ensures NextNonce(w.accounts, tx) { FundableNext(w.accounts, tx); }
      AppliedSendersDistinct(w.accounts, txs);
    }
  }

  lemma FundableNext(m: Accounts, tx: Tx)
    requires Fundable(m, tx)
    ensures NextNonce(m, tx)
  {
  }

  /** The full answer for fundable candidates: every order of them applies exactly when no
      sender occurs twice and each is executable on the registry as it stands. */
  lemma {:induction false} EveryOrderApplies(w: World, txs: seq<Tx>)
    requires SumMap(w.accounts, BalanceOf) < WORD
    requires forall tx :: tx in txs ==> Fundable(w.accounts, tx) && !DueWraps(tx)
    ensures AppliesInEveryOrder(w, txs) <==>
            DistinctSenders(txs) && forall tx :: tx in txs ==> Executable(w.registry, tx)
  {
    hide ExecuteBlock, Fundable, Executable, DueWraps;
    if AppliesInEveryOrder(w, txs) {
      forall tx | tx in txs ensures Executable(w.registry, tx) {
        FirstInSomeOrder(w, txs, tx);
      }
      assert multiset(txs) == multiset(txs);
      BatchAppliesIffDistinct(w, txs);
    }
    if DistinctSenders(txs) && forall tx :: tx in txs ==> Executable(w.registry, tx) {
      forall s | multiset(s) == multiset(txs) ensures ExecuteBlock(w, s).error.None? {
        SendersStayDistinct(txs, s);
        BatchAppliesIffDistinct(w, s);
      }
    }
  }

  /** An order that starts with `tx` applies, so `tx` applies to the state as it stands. */
  lemma FirstInSomeOrder(w: World, txs: seq<Tx>, tx: Tx)
    requires AppliesInEveryOrder(w, txs) && tx in txs
    ensures Executable(w.registry, tx)
  {
    hide ExecuteTx, Executable, Fundable;
    var i, rest := SplitAt(txs, tx);
    var s := [tx] + rest;
    assert multiset(s) == multiset(txs);
    assert ExecuteBlock(w, s).error.None?;
    assert s[0] == tx;
    ExecutesIff(w, tx);
  }

  lemma SendersStayDistinct(txs: seq<Tx>, s: seq<Tx>)
    requires multiset(s) == multiset(txs) && DistinctSenders(txs)
    ensures DistinctSenders(s) && forall tx :: tx in s <==> tx in txs
  {
    var sender := (tx: Tx) => tx.from;
    assert DistinctBy(txs, sender);
    PermutationDistinct(txs, s, sender);
    forall i, j | 0 <= i < j < |s| ensures s[i].from != s[j].from {
      assert sender(s[i]) != sender(s[j]);
    }
  }

  /** And all these orders lead to one and the same world. */
  lemma EveryOrderAgrees(w: World, txs: seq<Tx>, s: seq<Tx>)
    requires AppliesInEveryOrder(w, txs) && multiset(s) == multiset(txs)
    ensures ExecuteBlock(w, s).world == ExecuteBlock(w, txs).world
  {
    hide ExecuteBlock;
    assert multiset(txs) == multiset(txs);
    OrderIrrelevant(w, s, txs);
  }
}
