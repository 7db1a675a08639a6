/**
 What block execution does to the total of balances, own stake and delegated stake.
 */
module Conservation {
  import opened Base
  import opened Sums
  import opened Ledger

  ghost function BalanceOf(a: Account): int { a.balance }

  ghost function StakeOf(v: Validator): int { v.stake + v.delegated }

  /** Everything the two stores hold. */
  ghost function Supply(w: World): int {
    SumMap(w.accounts, BalanceOf) + SumMap(w.registry, StakeOf)
  }

  /** What an applied transaction takes out of circulation: its fee, and the value of a
      participation or of a transfer to oneself, which nobody receives. */
  ghost function Burn(tx: Tx): int {
    tx.fee + if tx.kind.Participation? || (tx.kind.Transfer? && tx.from == tx.to) then tx.value else 0
  }

  /** `Value + Fee` wraps, so that the sender pays too little. */
  ghost predicate DueWraps(tx: Tx) {
    tx.value + tx.fee >= WORD
  }

  /** Adding the value to the balance, stake or delegation that receives it wraps. */
  ghost predicate CreditWraps(w: World, tx: Tx) {
    match tx.kind
    case Transfer => tx.from != tx.to && GetAccount(w.accounts, tx.to).balance + tx.value >= WORD
    case RegisterValidator => tx.from in w.registry && w.registry[tx.from].stake + tx.value >= WORD
    case Delegate => tx.to in w.registry && w.registry[tx.to].delegated + tx.value >= WORD
    case Participation => false
    case Unknown(_) => false
  }

  ghost function WordIf(b: bool): int { if b then WORD else 0 }

  /** The value that a transaction puts into the registry. */
  ghost function Staked(w: World, tx: Tx): int {
    if tx.kind.RegisterValidator? || (tx.kind.Delegate? && tx.to in w.registry)
    then tx.value - WordIf(CreditWraps(w, tx)) else 0
  }

  ghost function OwnStake(r: Registry, a: Address): Word { if a in r then r[a].stake else 0 }

  lemma RegistryGain(w: World, tx: Tx)
    requires UpdateRegistry(w.registry, tx).Some?
    ensures SumMap(UpdateRegistry(w.registry, tx).value, StakeOf) == SumMap(w.registry, StakeOf) + Staked(w, tx)
  {
    hide SumMap, Wrap;
    var r := w.registry;
    var r' := UpdateRegistry(r, tx).value;
    if tx.kind.Delegate? {
      PlusWraps(r[tx.to].delegated, tx.value);
      SumMapUpdate(r, tx.to, r'[tx.to], StakeOf);
    } else if tx.kind.RegisterValidator? || (tx.kind.Participation? && tx.from in r) {
      PlusWraps(OwnStake(r, tx.from), tx.value);
      SumMapUpdate(r, tx.from, r'[tx.from], StakeOf);
    }
  }

  lemma PlusWraps(a: Word, b: Word)
    ensures Plus(a, b) == a + b - WordIf(a + b >= WORD)
  {
  }

  lemma DebitLoss(m: Accounts, tx: Tx, nonce: Word)
    requires Due(tx) <= GetAccount(m, tx.from).balance
    ensures SumMap(m[tx.from := Account(tx.from, GetAccount(m, tx.from).balance - Due(tx), nonce)], BalanceOf)
         == SumMap(m, BalanceOf) - Due(tx)
  {
    SumMapUpdate(m, tx.from, Account(tx.from, GetAccount(m, tx.from).balance - Due(tx), nonce), BalanceOf);
  }

  lemma CreditGain(m: Accounts, a: Address, value: Word)
    ensures var acc := GetAccount(m, a);
            SumMap(PutAccount(m, acc.(balance := Plus(acc.balance, value))), BalanceOf)
            == SumMap(m, BalanceOf) + value - WordIf(acc.balance + value >= WORD)
  {
    var acc := GetAccount(m, a);
    PlusWraps(acc.balance, value);
    SumMapUpdate(m, a, acc.(balance := Plus(acc.balance, value)), BalanceOf);
  }

  lemma BalanceLoss(w: World, tx: Tx)
    requires CheckTransaction(w.accounts, tx).None?
    ensures SumMap(MoveFunds(w.accounts, tx), BalanceOf)
         == SumMap(w.accounts, BalanceOf) - Due(tx)
            + if tx.kind.Transfer? && tx.from != tx.to then tx.value - WordIf(CreditWraps(w, tx)) else 0
  {
    hide SumMap, Wrap;
    var m := w.accounts;
    if tx.kind.Transfer? && tx.from != tx.to {
      var to := GetAccount(m, tx.to);
      var credited := PutAccount(m, to.(balance := Plus(to.balance, tx.value)));
      CreditGain(m, tx.to, tx.value);
      assert GetAccount(credited, tx.from) == GetAccount(m, tx.from);
      DebitLoss(credited, tx, tx.nonce);
    } else {
      SelfTransferIsDebit(m, tx);
      DebitLoss(m, tx, tx.nonce);
    }
  }

  /** Unless it pays somebody else, a transaction only ever writes its sender. */
  lemma SelfTransferIsDebit(m: Accounts, tx: Tx)
    requires CheckTransaction(m, tx).None? && !(tx.kind.Transfer? && tx.from != tx.to)
    ensures var sender := GetAccount(m, tx.from);
            MoveFunds(m, tx) == m[tx.from := Account(tx.from, sender.balance - Due(tx), Plus(sender.nonce, 1))]
  {
  }

  /** The exact effect of any applied transaction on the total, wrapping included. */
  lemma StepSupply(w: World, tx: Tx)
    requires ExecuteTx(w, tx).error.None?
    ensures Supply(ExecuteTx(w, tx).world)
         == Supply(w) - Burn(tx) + WordIf(DueWraps(tx)) - WordIf(CreditWraps(w, tx))
  {
    RegistryGain(w, tx);
    BalanceLoss(w, tx);
    PlusWraps(tx.value, tx.fee);
    var w' := ExecuteTx(w, tx).world;
    assert w' == World(MoveFunds(w.accounts, tx), UpdateRegistry(w.registry, tx).value);
  }

  /** So one transaction conserves value exactly when its two additions wrap together or
      not at all. */
  lemma StepConserves(w: World, tx: Tx)
    requires ExecuteTx(w, tx).error.None?
    ensures Supply(ExecuteTx(w, tx).world) == Supply(w) - Burn(tx) <==> (DueWraps(tx) <==> CreditWraps(w, tx))
  {
    StepSupply(w, tx);
  }

  lemma SupplyNonNegative(w: World)
    ensures SumMap(w.accounts, BalanceOf) >= 0 && SumMap(w.registry, StakeOf) >= 0
  {
    SumMapNonNegative(w.accounts, BalanceOf);
    SumMapNonNegative(w.registry, StakeOf);
  }

  /** A supply that fits in a word leaves no room for a credit to wrap. */
  lemma NoCreditWraps(w: World, tx: Tx)
    requires Supply(w) < WORD && ExecuteTx(w, tx).error.None? && !DueWraps(tx)
    ensures !CreditWraps(w, tx)
  {
    hide SumMap, MoveFunds;
    SupplyNonNegative(w);
    var m, r := w.accounts, w.registry;
    if tx.from in m {
      SumMapTwo(m, tx.from, tx.to, BalanceOf);
    }
    if tx.to in m {
      SumMapTwo(m, tx.to, tx.from, BalanceOf);
    }
    if tx.from in r {
      SumMapTwo(r, tx.from, tx.to, StakeOf);
    }
    if tx.to in r {
      SumMapTwo(r, tx.to, tx.from, StakeOf);
    }
  }

  /** No addition wraps at any step of executing these transactions from `w`. */
  ghost predicate NothingWraps(w: World, txs: seq<Tx>)
    decreases |txs|
  {
    txs == [] || (!DueWraps(txs[0]) && !CreditWraps(w, txs[0]) && NothingWraps(ExecuteTx(w, txs[0]).world, txs[1..]))
  }

  /** A block that applies lowers the supply by exactly what its transactions burn, and if
      the supply fits in a word then no balance and no stake ever wraps. */
  lemma {:induction false} BlockConserves(w: World, txs: seq<Tx>)
    requires ExecuteBlock(w, txs).error.None?
    requires Supply(w) < WORD
    requires forall tx :: tx in txs ==> !DueWraps(tx)
    ensures Supply(ExecuteBlock(w, txs).world) == Supply(w) - SumOver(txs, Burn)
    ensures Supply(ExecuteBlock(w, txs).world) <= Supply(w)
    ensures NothingWraps(w, txs)
    decreases |txs|
  {
    if txs != [] {
      assert txs[0] in txs;
      NoCreditWraps(w, txs[0]);
      StepSupply(w, txs[0]);
      BlockConserves(ExecuteTx(w, txs[0]).world, txs[1..]);
    }
  }

  /** The same over a run of blocks, all of which apply. */
  ghost function Flatten(blocks: seq<seq<Tx>>): seq<Tx> {
    if blocks == [] then [] else blocks[0] + Flatten(blocks[1..])
  }

  lemma {:induction false} ChainIsOneBlock(w: World, blocks: seq<seq<Tx>>)
    requires ChainApplies(w, blocks)
    ensures ExecuteBlock(w, Flatten(blocks)).error.None?
    ensures ExecuteBlock(w, Flatten(blocks)).world == ExecuteChain(w, blocks)
    decreases |blocks|
  {
    if blocks != [] {
      ChainIsOneBlock(ExecuteBlock(w, blocks[0]).world, blocks[1..]);
      ExecuteAppend(w, blocks[0], Flatten(blocks[1..]));
    }
  }

  lemma {:induction false} ChainConserves(w: World, blocks: seq<seq<Tx>>)
    requires ChainApplies(w, blocks)
    requires Supply(w) < WORD
    requires forall tx :: tx in Flatten(blocks) ==> !DueWraps(tx)
    ensures Supply(ExecuteChain(w, blocks)) == Supply(w) - SumOver(Flatten(blocks), Burn)
    ensures NothingWraps(w, Flatten(blocks))
  {
    ChainIsOneBlock(w, blocks);
    BlockConserves(w, Flatten(blocks));
  }

  /** A block that fails conserves value except for the refused transaction, whose stake or
      delegation was entered in the registry before the accounts refused it. */
  lemma FailedBlockSupply(w: World, txs: seq<Tx>)
    requires ExecuteBlock(w, txs).error.Some?
    requires Supply(w) < WORD
    requires forall tx :: tx in txs[..ExecuteBlock(w, txs).applied] ==> !DueWraps(tx)
    ensures var e := ExecuteBlock(w, txs);
            var before := ExecuteBlock(w, txs[..e.applied]).world;
            Supply(e.world) == Supply(w) - SumOver(txs[..e.applied], Burn) + Staked(before, txs[e.applied])
  {
    AppliedPrefix(w, txs);
    var e := ExecuteBlock(w, txs);
    var before := ExecuteBlock(w, txs[..e.applied]).world;
    BlockConserves(w, txs[..e.applied]);
    if UpdateRegistry(before.registry, txs[e.applied]).Some? {
      RegistryGain(before, txs[e.applied]);
    }
  }

  /** So conservation fails for blocks that fail: a registration nobody can pay for leaves
      its stake behind. */
  lemma RefusedRegistrationMints(a: Address, h: Digest)
    ensures var w := World(map[], map[]);
            var tx := Tx(a, a, 7, 1, 0, RegisterValidator, h, false);
            var e := ExecuteBlock(w, [tx]);
            && e.error == Some(InsufficientBalance)
            && Supply(w) == 0
            && Supply(e.world) == 7
  {
    var w := World(map[], map[]);
    var tx := Tx(a, a, 7, 1, 0, RegisterValidator, h, false);
    RegistryGain(w, tx);
    assert ExecuteBlock(w, [tx]) == ExecuteTx(w, tx);
  }

  /** And it fails when `Value + Fee` wraps: a sender with nothing pays out nearly 2^64. */
  lemma WrappedDueMints(a: Address, b: Address, h: Digest)
    requires a != b
    ensures var w := World(map[], map[]);
            var tx := Tx(a, b, WORD - 1, 1, 1, Transfer, h, false);
            var e := ExecuteBlock(w, [tx]);
            && e.error.None?
            && Supply(w) == 0
            && Supply(e.world) == WORD - 1
  {
    var w := World(map[], map[]);
    var tx := Tx(a, b, WORD - 1, 1, 1, Transfer, h, false);
    StepSupply(w, tx);
    assert ExecuteBlock(w, [tx]).world == ExecuteTx(w, tx).world;
  }
}
