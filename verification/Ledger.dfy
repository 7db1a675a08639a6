/**
 Block execution as functions on values: the accounts of state.go, the validators of
 validator_registry.go, and `ApplyBlockWithRegistry` of blockchain.go, which moves value
 between the two. The classes of Chain.dfy are proved to compute these functions.
 */
module Ledger {
  import opened Base

  datatype Account = Account(address: Address, balance: Word, nonce: Word)

  datatype Validator = Validator(address: Address, stake: Word, delegated: Word, reputation: Word, participating: bool)

  datatype Kind = Participation | RegisterValidator | Delegate | Transfer | Unknown(name: string)

  datatype Tx = Tx(
    from: Address, to: Address, value: Word, nonce: Word, fee: Word, kind: Kind, hash: Digest, used: bool)

  /** Accounts and validators are stored under their own address. */
  type Accounts = m: map<Address, Account> | forall a :: a in m ==> m[a].address == a
    witness map[]

  type Registry = m: map<Address, Validator> | forall a :: a in m ==> m[a].address == a
    witness map[]

  datatype World = World(accounts: Accounts, registry: Registry)

  datatype Error =
    | InvalidNonce
    | InsufficientBalance
    | ZeroStake
    | ZeroDelegation
    | UnknownType
    | ValidatorNotFound

  /** An unknown address reads as an account with nothing in it. */
  function GetAccount(m: Accounts, a: Address): (r: Account)
    ensures r.address == a
  {
    if a in m then m[a] else Account(a, 0, 0)
  }

  function PutAccount(m: Accounts, acc: Account): Accounts {
    m[acc.address := acc]
  }

  function Due(tx: Tx): Word {
    Plus(tx.value, tx.fee)
  }

  /** The first check of `ApplyTransaction` that fails, if any. */
  function CheckTransaction(m: Accounts, tx: Tx): Option<Error> {
    var sender := GetAccount(m, tx.from);
    if Plus(sender.nonce, 1) != tx.nonce then Some(InvalidNonce)
    else if Due(tx) > sender.balance then Some(InsufficientBalance)
    else match tx.kind
      case Participation => None
      case RegisterValidator => if tx.value == 0 then Some(ZeroStake) else None
      case Delegate => if tx.value == 0 then Some(ZeroDelegation) else None
      case Transfer => None
      case Unknown(_) => Some(UnknownType)
  }

  /** The writes of `ApplyTransaction`. The recipient is read and written before the
      sender, so in a self-transfer the sender's write is the one that stays. */
  function MoveFunds(m: Accounts, tx: Tx): Accounts
    requires CheckTransaction(m, tx).None?
  {
    var sender := GetAccount(m, tx.from);
    var recipient := GetAccount(m, tx.to);
    var credited :=
      if tx.kind.Transfer? then PutAccount(m, recipient.(balance := Plus(recipient.balance, tx.value))) else m;
    PutAccount(credited, sender.(balance := sender.balance - Due(tx), nonce := Plus(sender.nonce, 1)))
  }

  /** `State.ApplyBlock`: the accounts after a stretch of transactions, up to the first
      that is refused. */
  function AccountsAfter(m: Accounts, txs: seq<Tx>): Accounts
    decreases |txs|
  {
    if txs == [] || CheckTransaction(m, txs[0]).Some? then m else AccountsAfter(MoveFunds(m, txs[0]), txs[1..])
  }

  /** No transaction of the stretch is refused. */
  predicate AllApply(m: Accounts, txs: seq<Tx>)
    decreases |txs|
  {
    txs == [] || (CheckTransaction(m, txs[0]).None? && AllApply(MoveFunds(m, txs[0]), txs[1..]))
  }

  /** What a transaction does to the registry; nothing if it is refused there. */
  function UpdateRegistry(r: Registry, tx: Tx): Option<Registry> {
    match tx.kind
    case Participation =>
      Some(if tx.from in r then r[tx.from := r[tx.from].(participating := true)] else r)
    case RegisterValidator =>
      var v := if tx.from in r
               then r[tx.from].(stake := Plus(r[tx.from].stake, tx.value), participating := true)
               else Validator(tx.from, tx.value, 0, 0, true);
      Some(r[tx.from := v])
    case Delegate =>
      if tx.to in r then Some(r[tx.to := r[tx.to].(delegated := Plus(r[tx.to].delegated, tx.value))]) else None
    case Transfer => Some(r)
    case Unknown(_) => Some(r)
  }

  /** The world after an attempt to execute something, and the error that stopped it.
      `applied` counts the transactions that went through. */
  datatype Execution = Execution(world: World, applied: nat, error: Option<Error>)

  /** One transaction: the registry is written first, and stays written when the
      accounts then refuse the transaction. */
  function ExecuteTx(w: World, tx: Tx): (e: Execution)
    ensures e.applied == if e.error.None? then 1 else 0
  {
    match UpdateRegistry(w.registry, tx)
    case None => Execution(w, 0, Some(ValidatorNotFound))
    case Some(registry) =>
      match CheckTransaction(w.accounts, tx)
      case Some(error) => Execution(World(w.accounts, registry), 0, Some(error))
      case None => Execution(World(MoveFunds(w.accounts, tx), registry), 1, None)
  }

  /** `ApplyBlockWithRegistry`: stop at the first error, keep what was written. */
  function ExecuteBlock(w: World, txs: seq<Tx>): (e: Execution)
    ensures e.applied <= |txs|
    ensures e.error.None? <==> e.applied == |txs|
    decreases |txs|
  {
    if txs == [] then Execution(w, 0, None)
    else
      var first := ExecuteTx(w, txs[0]);
      if first.error.Some? then first
      else
        var rest := ExecuteBlock(first.world, txs[1..]);
        Execution(rest.world, rest.applied + 1, rest.error)
  }

  /** A run of blocks, each executed whether or not the ones before it went through. */
  function ExecuteChain(w: World, blocks: seq<seq<Tx>>): World
    decreases |blocks|
  {
    if blocks == [] then w else ExecuteChain(ExecuteBlock(w, blocks[0]).world, blocks[1..])
  }

  /** Every block of the run applies without error. */
  predicate ChainApplies(w: World, blocks: seq<seq<Tx>>)
    decreases |blocks|
  {
    || blocks == []
    || (ExecuteBlock(w, blocks[0]).error.None? && ChainApplies(ExecuteBlock(w, blocks[0]).world, blocks[1..]))
  }

  /** What any block leaves behind: its applied prefix in full, plus whatever the refused
      transaction wrote before it was refused. */
  lemma {:induction false} AppliedPrefix(w: World, txs: seq<Tx>)
    ensures var e := ExecuteBlock(w, txs);
            var before := ExecuteBlock(w, txs[..e.applied]);
            && before.error.None?
            && e.world == (if e.error.None? then before.world else ExecuteTx(before.world, txs[e.applied]).world)
            && (e.error.Some? ==> e.error == ExecuteTx(before.world, txs[e.applied]).error)
    decreases |txs|
  {
    if txs != [] && ExecuteTx(w, txs[0]).error.None? {
      var e := ExecuteBlock(w, txs);
      AppliedPrefix(ExecuteTx(w, txs[0]).world, txs[1..]);
      assert txs[..e.applied][1..] == txs[1..][..e.applied - 1];
    }
  }

  /** Executing two stretches of transactions one after the other. */
  lemma {:induction false} ExecuteAppend(w: World, s: seq<Tx>, t: seq<Tx>)
    requires ExecuteBlock(w, s).error.None?
    ensures ExecuteBlock(w, s + t).world == ExecuteBlock(ExecuteBlock(w, s).world, t).world
    ensures ExecuteBlock(w, s + t).error == ExecuteBlock(ExecuteBlock(w, s).world, t).error
    decreases |s|
  {
    hide ExecuteTx;
    if s == [] {
      assert s + t == t;
    } else {
      ExecuteAppend(ExecuteTx(w, s[0]).world, s[1..], t);
      assert (s + t)[1..] == s[1..] + t;
    }
  }

  /** On the accounts alone, a block that applies is `State.ApplyBlock`. */
  lemma {:induction false} ExecuteBlockAccounts(w: World, txs: seq<Tx>)
    requires ExecuteBlock(w, txs).error.None?
    ensures AllApply(w.accounts, txs)
    ensures ExecuteBlock(w, txs).world.accounts == AccountsAfter(w.accounts, txs)
    decreases |txs|
  {
    hide MoveFunds, UpdateRegistry, CheckTransaction;
    if txs != [] {
      ExecuteBlockAccounts(ExecuteTx(w, txs[0]).world, txs[1..]);
    }
  }

  lemma {:induction false} AllApplyAppend(m: Accounts, s: seq<Tx>, t: seq<Tx>)
    ensures AllApply(m, s + t) <==> AllApply(m, s) && AllApply(AccountsAfter(m, s), t)
    ensures AllApply(m, s) ==> AccountsAfter(m, s + t) == AccountsAfter(AccountsAfter(m, s), t)
    decreases |s|
  {
    hide MoveFunds, CheckTransaction;
    if s == [] {
      assert s + t == t;
    } else if CheckTransaction(m, s[0]).None? {
      AllApplyAppend(MoveFunds(m, s[0]), s[1..], t);
      assert (s + t)[1..] == s[1..] + t;
    }
  }
}
