/**
 Where a block leads depends only on which transactions it holds: whenever two orders
 both apply, they end in the same world. Each account and each validator has a closed
 form in sums over the block, and sums ignore order. Wrap-around included.
 */
module OrderIndependence {
  import opened Base
  import opened Sums
  import opened Ledger

  function BoolToInt(b: bool): int { if b then 1 else 0 }

  // What one transaction contributes to the account and the validator at `a`.

  predicate Pays(tx: Tx, a: Address) { tx.kind.Transfer? && tx.to == a && tx.from != a }

  function BalanceChange(a: Address): Tx -> int {
    (tx: Tx) => (if Pays(tx, a) then tx.value else 0) - if tx.from == a then tx.value + tx.fee else 0
  }

  function Sends(a: Address): Tx -> int {
    (tx: Tx) => BoolToInt(tx.from == a)
  }

  function Touches(a: Address): Tx -> int {
    (tx: Tx) => BoolToInt(tx.from == a || Pays(tx, a))
  }

  function Registers(a: Address): Tx -> int {
    (tx: Tx) => BoolToInt(tx.kind.RegisterValidator? && tx.from == a)
  }

  function Participates(a: Address): Tx -> int {
    (tx: Tx) => BoolToInt(tx.kind.Participation? && tx.from == a)
  }

  function StakeChange(a: Address): Tx -> int {
    (tx: Tx) => if tx.kind.RegisterValidator? && tx.from == a then tx.value else 0
  }

  function DelegatedChange(a: Address): Tx -> int {
    (tx: Tx) => if tx.kind.Delegate? && tx.to == a then tx.value else 0
  }

  /** The account that a block leaves at `a`, from sums over the block. */
  ghost function NetAccount(m: Accounts, txs: seq<Tx>, a: Address): Account {
    var acc := GetAccount(m, a);
    Account(a, Wrap(acc.balance + SumOver(txs, BalanceChange(a))), Wrap(acc.nonce + SumOver(txs, Sends(a))))
  }

  ghost function GetValidator(r: Registry, a: Address): Validator {
    if a in r then r[a] else Validator(a, 0, 0, 0, false)
  }

  /** The validator that a block leaves at `a`, from sums over the block. */
  ghost function NetValidator(r: Registry, txs: seq<Tx>, a: Address): Validator {
    var v := GetValidator(r, a);
    Validator(a, Wrap(v.stake + SumOver(txs, StakeChange(a))), Wrap(v.delegated + SumOver(txs, DelegatedChange(a))),
              v.reputation,
              v.participating || SumOver(txs, Registers(a)) > 0 || (a in r && SumOver(txs, Participates(a)) > 0))
  }

  lemma {:induction false} CountNonNegative(txs: seq<Tx>, f: Tx -> int)
    requires forall tx :: f(tx) >= 0
    ensures SumOver(txs, f) >= 0
  {
    if txs != [] {
      CountNonNegative(txs[1..], f);
    }
  }

  /** `m'` is `m` after what `tx` contributes to the account at `a`. */
  ghost predicate AccountStep(m: Accounts, m': Accounts, tx: Tx, a: Address) {
    && GetAccount(m', a).balance == Wrap(GetAccount(m, a).balance + BalanceChange(a)(tx))
    && GetAccount(m', a).nonce == Wrap(GetAccount(m, a).nonce + Sends(a)(tx))
    && (a in m' <==> a in m || Touches(a)(tx) > 0)
  }

  lemma StepAccount(m: Accounts, tx: Tx, a: Address)
    requires CheckTransaction(m, tx).None?
    ensures AccountStep(m, MoveFunds(m, tx), tx, a)
  {
    hide Wrap, CheckTransaction;
    var acc := GetAccount(m, a);
    WrapOfWord(acc.balance);
    WrapOfWord(acc.nonce);
    assert Due(tx) <= GetAccount(m, tx.from).balance by { Affordable(m, tx); }
    if a == tx.from {
      DebitWraps(acc.balance, tx.value, tx.fee);
      assert GetAccount(MoveFunds(m, tx), a) == Account(a, acc.balance - Due(tx), Plus(acc.nonce, 1));
    }
  }

  lemma Affordable(m: Accounts, tx: Tx)
    requires CheckTransaction(m, tx).None?
    ensures Due(tx) <= GetAccount(m, tx.from).balance
  {
  }

  lemma DebitWraps(balance: Word, value: Word, fee: Word)
    requires Plus(value, fee) <= balance
    ensures balance - Plus(value, fee) == Wrap(balance - (value + fee))
  {
  }

  lemma StepNet(m: Accounts, m': Accounts, txs: seq<Tx>, a: Address)
    requires txs != [] && AccountStep(m, m', txs[0], a)
    ensures NetAccount(m', txs[1..], a) == NetAccount(m, txs, a)
    ensures (a in m' || SumOver(txs[1..], Touches(a)) > 0) <==> (a in m || SumOver(txs, Touches(a)) > 0)
  {
    hide Wrap, GetAccount, SumOver;
    SumOverHead(txs, BalanceChange(a));
    SumOverHead(txs, Sends(a));
    SumOverHead(txs, Touches(a));
    var acc := GetAccount(m, a);
    WrapAbsorbs(acc.balance + BalanceChange(a)(txs[0]), SumOver(txs[1..], BalanceChange(a)));
    WrapAbsorbs(acc.nonce + Sends(a)(txs[0]), SumOver(txs[1..], Sends(a)));
    CountNonNegative(txs[1..], Touches(a));
  }

  lemma {:induction false} BlockAccount(m: Accounts, txs: seq<Tx>, a: Address)
    requires AllApply(m, txs)
    ensures var m' := AccountsAfter(m, txs);
            && GetAccount(m', a) == NetAccount(m, txs, a)
            && (a in m' <==> a in m || SumOver(txs, Touches(a)) > 0)
    decreases |txs|
  {
    hide MoveFunds, CheckTransaction, AccountStep;
    if txs != [] {
      StepAccount(m, txs[0], a);
      StepNet(m, MoveFunds(m, txs[0]), txs, a);
      BlockAccount(MoveFunds(m, txs[0]), txs[1..], a);
    }
  }

  /** Two orders of the same transactions that `State.ApplyBlock` both accepts leave the
      same accounts. */
  lemma AccountsOrderIrrelevant(m: Accounts, s: seq<Tx>, t: seq<Tx>)
    requires multiset(s) == multiset(t) && AllApply(m, s) && AllApply(m, t)
    ensures AccountsAfter(m, s) == AccountsAfter(m, t)
  {
    hide AllApply, AccountsAfter, SumOver, Wrap;
    var x, y := AccountsAfter(m, s), AccountsAfter(m, t);
    forall a: Address ensures (a in x <==> a in y) && GetAccount(x, a) == GetAccount(y, a) {
      BlockAccount(m, s, a);
      BlockAccount(m, t, a);
      SumOverPermutation(s, t, BalanceChange(a));
      SumOverPermutation(s, t, Sends(a));
      SumOverPermutation(s, t, Touches(a));
    }
    forall a: Address | a in x ensures x[a] == y[a] {
      assert GetAccount(x, a) == GetAccount(y, a);
    }
  }

  ghost predicate ValidatorStep(r: Registry, r': Registry, tx: Tx, a: Address) {
    var v := GetValidator(r, a);
    && (a in r' <==> a in r || Registers(a)(tx) > 0)
    && GetValidator(r', a) ==
       Validator(a, Wrap(v.stake + StakeChange(a)(tx)), Wrap(v.delegated + DelegatedChange(a)(tx)), v.reputation,
                 v.participating || Registers(a)(tx) > 0 || (a in r && Participates(a)(tx) > 0))
  }

  lemma StepValidator(r: Registry, tx: Tx, a: Address)
    requires UpdateRegistry(r, tx).Some?
    ensures ValidatorStep(r, UpdateRegistry(r, tx).value, tx, a)
  {
    hide Wrap;
    var v := GetValidator(r, a);
    WrapOfWord(v.stake);
    WrapOfWord(v.delegated);
    WrapOfWord(tx.value);
  }

  lemma StepNetValidator(r: Registry, r': Registry, txs: seq<Tx>, a: Address)
    requires txs != [] && ValidatorStep(r, r', txs[0], a)
    ensures NetValidator(r', txs[1..], a) == NetValidator(r, txs, a)
    ensures (a in r' || SumOver(txs[1..], Registers(a)) > 0) <==> (a in r || SumOver(txs, Registers(a)) > 0)
  {
    hide Wrap, GetValidator, SumOver;
    SumOverHead(txs, Registers(a));
    SumOverHead(txs, Participates(a));
    SumOverHead(txs, StakeChange(a));
    SumOverHead(txs, DelegatedChange(a));
    var v := GetValidator(r, a);
    CountNonNegative(txs[1..], Registers(a));
    CountNonNegative(txs[1..], Participates(a));
    WrapAbsorbs(v.stake + StakeChange(a)(txs[0]), SumOver(txs[1..], StakeChange(a)));
    WrapAbsorbs(v.delegated + DelegatedChange(a)(txs[0]), SumOver(txs[1..], DelegatedChange(a)));
  }

  lemma {:induction false} BlockValidator(w: World, txs: seq<Tx>, a: Address)
    requires ExecuteBlock(w, txs).error.None?
    ensures var r' := ExecuteBlock(w, txs).world.registry;
            && (a in r' <==> a in w.registry || SumOver(txs, Registers(a)) > 0)
            && GetValidator(r', a) == NetValidator(w.registry, txs, a)
    decreases |txs|
  {
    hide MoveFunds, UpdateRegistry, CheckTransaction, ValidatorStep;
    if txs != [] {
      var w' := ExecuteTx(w, txs[0]).world;
      StepValidator(w.registry, txs[0], a);
      StepNetValidator(w.registry, w'.registry, txs, a);
      BlockValidator(w', txs[1..], a);
    }
  }

  /** Two orders of the same transactions that both apply end in the same world: the same
      balances, nonces and validators. */
  lemma OrderIrrelevant(w: World, s: seq<Tx>, t: seq<Tx>)
    requires multiset(s) == multiset(t)
    requires ExecuteBlock(w, s).error.None? && ExecuteBlock(w, t).error.None?
    ensures ExecuteBlock(w, s).world == ExecuteBlock(w, t).world
  {
    hide ExecuteBlock, SumOver, Wrap;
    var x, y := ExecuteBlock(w, s).world, ExecuteBlock(w, t).world;
    assert x.accounts == y.accounts by {
      ExecuteBlockAccounts(w, s);
      ExecuteBlockAccounts(w, t);
      AccountsOrderIrrelevant(w.accounts, s, t);
    }
    forall a: Address
      ensures (a in x.registry <==> a in y.registry) && GetValidator(x.registry, a) == GetValidator(y.registry, a)
    {
      BlockValidator(w, s, a);
      BlockValidator(w, t, a);
      SumOverPermutation(s, t, Registers(a));
      SumOverPermutation(s, t, Participates(a));
      SumOverPermutation(s, t, StakeChange(a));
      SumOverPermutation(s, t, DelegatedChange(a));
    }
    assert x.registry == y.registry by {
      forall a: Address | a in x.registry ensures x.registry[a] == y.registry[a] {
        assert GetValidator(x.registry, a) == GetValidator(y.registry, a);
      }
    }
  }

  // ---- Blocks that fail ----

  /** Why a transaction is refused, first reason first. */
  lemma WhyRefused(w: World, tx: Tx)
    ensures var error := ExecuteTx(w, tx).error;
            var sender := GetAccount(w.accounts, tx.from);
            var lost := tx.kind.Delegate? && tx.to !in w.registry;
            var stale := tx.nonce != (sender.nonce + 1) % WORD;
            var poor := (tx.value + tx.fee) % WORD > sender.balance;
            && (error == Some(ValidatorNotFound) <==> lost)
            && (error == Some(InvalidNonce) <==> !lost && stale)
            && (error == Some(InsufficientBalance) <==> !lost && !stale && poor)
            && (error == Some(ZeroStake) <==> !stale && !poor && tx.kind.RegisterValidator? && tx.value == 0)
            && (error == Some(ZeroDelegation) <==> !lost && !stale && !poor && tx.kind.Delegate? && tx.value == 0)
            && (error == Some(UnknownType) <==> !stale && !poor && tx.kind.Unknown?)
  {
  }

  /** How many transactions of a block reach the registry: those that apply, and a refused
      one unless the registry itself refused it. */
  ghost function EnteredCount(w: World, txs: seq<Tx>): (k: nat)
    ensures k <= |txs|
  {
    var e := ExecuteBlock(w, txs);
    if e.error.None? || e.error == Some(ValidatorNotFound) then e.applied else e.applied + 1
  }

  lemma RefusedRegistry(w: World, tx: Tx, a: Address)
    requires ExecuteTx(w, tx).error.Some?
    ensures ExecuteTx(w, tx).error == Some(ValidatorNotFound) ==> ExecuteTx(w, tx).world.registry == w.registry
    ensures ExecuteTx(w, tx).error != Some(ValidatorNotFound) ==>
              ValidatorStep(w.registry, ExecuteTx(w, tx).world.registry, tx, a)
  {
    hide ValidatorStep, CheckTransaction;
    CheckErrors(w.accounts, tx);
    if UpdateRegistry(w.registry, tx).Some? {
      StepValidator(w.registry, tx, a);
    }
  }

  lemma CheckErrors(m: Accounts, tx: Tx)
    ensures CheckTransaction(m, tx) != Some(ValidatorNotFound)
  {
  }

  /** What any block leaves of every validator, whether it applies or fails, in closed form. */
  lemma {:induction false} RegistryAfterBlock(w: World, txs: seq<Tx>, a: Address)
    ensures var r' := ExecuteBlock(w, txs).world.registry;
            && (a in r' <==> a in w.registry || SumOver(txs[..EnteredCount(w, txs)], Registers(a)) > 0)
            && GetValidator(r', a) == NetValidator(w.registry, txs[..EnteredCount(w, txs)], a)
    decreases |txs|
  {
    hide UpdateRegistry, CheckTransaction, ValidatorStep, ExecuteTx, NetValidator, GetValidator, SumOver;
    if txs == [] {
      NothingEntered(w.registry, a);
    } else {
      var first := ExecuteTx(w, txs[0]);
      var entered := txs[..EnteredCount(w, txs)];
      if first.error.None? {
        assert entered[1..] == txs[1..][..EnteredCount(first.world, txs[1..])] && entered[0] == txs[0];
        AppliedRegistry(w, txs[0], a);
        StepNetValidator(w.registry, first.world.registry, entered, a);
        RegistryAfterBlock(first.world, txs[1..], a);
      } else {
        RefusedRegistry(w, txs[0], a);
        NothingEntered(w.registry, a);
        NothingEntered(first.world.registry, a);
        if first.error != Some(ValidatorNotFound) {
          assert entered == [txs[0]] && entered[1..] == [];
          StepNetValidator(w.registry, first.world.registry, entered, a);
        }
      }
    }
  }

  lemma AppliedRegistry(w: World, tx: Tx, a: Address)
    requires ExecuteTx(w, tx).error.None?
    ensures ValidatorStep(w.registry, ExecuteTx(w, tx).world.registry, tx, a)
  {
    hide ValidatorStep, CheckTransaction, MoveFunds;
    StepValidator(w.registry, tx, a);
  }

  lemma NothingEntered(r: Registry, a: Address)
    ensures NetValidator(r, [], a) == GetValidator(r, a) && SumOver([], Registers(a)) == 0
  {
  }

  /** And of every account: what its applied transactions add up to. */
  lemma {:induction false} AccountsAfterBlock(w: World, txs: seq<Tx>, a: Address)
    ensures var e := ExecuteBlock(w, txs);
            && GetAccount(e.world.accounts, a) == NetAccount(w.accounts, txs[..e.applied], a)
            && (a in e.world.accounts <==> a in w.accounts || SumOver(txs[..e.applied], Touches(a)) > 0)
  {
    hide ExecuteBlock, ExecuteTx, NetAccount, SumOver, AllApply, AccountsAfter;
    var e := ExecuteBlock(w, txs);
    AppliedPrefix(w, txs);
    ExecuteBlockAccounts(w, txs[..e.applied]);
    BlockAccount(w.accounts, txs[..e.applied], a);
    if e.error.Some? {
      RefusedKeepsAccounts(ExecuteBlock(w, txs[..e.applied]).world, txs[e.applied]);
    }
  }

  lemma RefusedKeepsAccounts(w: World, tx: Tx)
    requires ExecuteTx(w, tx).error.Some?
    ensures ExecuteTx(w, tx).world.accounts == w.accounts
  {
  }

  /** `State.ApplyBlock` on its own applies the longest stretch from the start in which
      nothing is refused, and leaves what that stretch adds up to. */
  lemma {:induction false} LongestStretch(m: Accounts, txs: seq<Tx>, a: Address) returns (k: nat)
    ensures k <= |txs| && AllApply(m, txs[..k]) && (k < |txs| ==> !AllApply(m, txs[..k + 1]))
    ensures GetAccount(AccountsAfter(m, txs), a) == NetAccount(m, txs[..k], a)
    ensures a in AccountsAfter(m, txs) <==> a in m || SumOver(txs[..k], Touches(a)) > 0
    decreases |txs|
  {
    hide MoveFunds, CheckTransaction, NetAccount, SumOver, AccountStep;
    if txs == [] || CheckTransaction(m, txs[0]).Some? {
      k := 0;
      assert txs[..0] == [] && AccountsAfter(m, []) == m;
      BlockAccount(m, [], a);
    } else {
      var m' := MoveFunds(m, txs[0]);
      k := LongestStretch(m', txs[1..], a);
      k := k + 1;
      assert txs[..k][1..] == txs[1..][..k - 1];
      if k < |txs| {
        assert txs[..k + 1][1..] == txs[1..][..k];
      }
      StepAccount(m, txs[0], a);
      StepNet(m, m', txs[..k], a);
    }
  }
}
