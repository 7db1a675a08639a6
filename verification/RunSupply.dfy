/** Supply over any run of blocks, those that fail included. */
module RunSupply {
  import opened Base
  import opened Sums
  import opened Ledger
  import opened Conservation
  import opened Replay

  /** The amount that a refused transaction leaves in the registry, if nothing wraps. */
  ghost function Entered(w: World, tx: Tx): nat {
    if tx.kind.RegisterValidator? || (tx.kind.Delegate? && tx.to in w.registry) then tx.value else 0
  }

  /** What the refused transaction of a block leaves in the registry. */
  ghost function LeftByBlock(w: World, txs: seq<Tx>): nat {
    var e := ExecuteBlock(w, txs);
    if e.error.None? then 0 else Entered(ExecuteBlock(w, txs[..e.applied]).world, txs[e.applied])
  }

  /** What all the refused transactions of a run leave there. */
  ghost function LeftByRefused(w: World, blocks: seq<seq<Tx>>): nat
    decreases |blocks|
  {
    if blocks == [] then 0
    else LeftByBlock(w, blocks[0]) + LeftByRefused(ExecuteBlock(w, blocks[0]).world, blocks[1..])
  }

  /** A stake that the supply has room for is entered without wrapping. */
  lemma EnteredIsStaked(w: World, tx: Tx)
    requires Supply(w) + Entered(w, tx) < WORD
    ensures Staked(w, tx) == Entered(w, tx)
  {
    hide SumMap;
    SupplyNonNegative(w);
    if tx.from in w.registry {
      SumMapTwo(w.registry, tx.from, tx.to, StakeOf);
    }
    if tx.to in w.registry {
      SumMapTwo(w.registry, tx.to, tx.from, StakeOf);
    }
  }

  lemma {:induction false} BlockSupply(w: World, txs: seq<Tx>)
    requires Supply(w) + LeftByBlock(w, txs) < WORD
    requires forall tx :: tx in txs[..ExecuteBlock(w, txs).applied] ==> !DueWraps(tx)
    ensures var e := ExecuteBlock(w, txs);
            && Supply(e.world) == Supply(w) - SumOver(txs[..e.applied], Burn) + LeftByBlock(w, txs)
            && Supply(e.world) <= Supply(w) + LeftByBlock(w, txs)
  {
    hide Supply, Staked, Entered, ExecuteBlock, DueWraps;
    var e := ExecuteBlock(w, txs);
    AppliedPrefix(w, txs);
    BlockConserves(w, txs[..e.applied]);
    if e.error.Some? {
      FailedBlockSupply(w, txs);
      EnteredIsStaked(ExecuteBlock(w, txs[..e.applied]).world, txs[e.applied]);
    }
  }

  /** Over any run of blocks, whether they apply or fail, the total of balances and stakes
      falls by what the applied transactions burn and rises by what the refused ones leave
      in the registry, as long as the two together fit in a word. */
  lemma {:induction false} RunConserves(w: World, blocks: seq<seq<Tx>>)
    requires Supply(w) + LeftByRefused(w, blocks) < WORD
    requires forall tx :: tx in AppliedLog(w, blocks) ==> !DueWraps(tx)
    ensures Supply(ExecuteChain(w, blocks)) ==
            Supply(w) - SumOver(AppliedLog(w, blocks), Burn) + LeftByRefused(w, blocks)
    decreases |blocks|
  {
    hide Supply, LeftByBlock, ExecuteBlock, DueWraps, SumOver;
    if blocks == [] {
      SumOverEmpty();
    } else {
      var e := ExecuteBlock(w, blocks[0]);
      var done, rest := blocks[0][..e.applied], AppliedLog(e.world, blocks[1..]);
      assert forall tx :: tx in done || tx in rest ==> tx in AppliedLog(w, blocks);
      BlockSupply(w, blocks[0]);
      RunConserves(e.world, blocks[1..]);
      SumOverAppend(done, rest, Burn);
    }
  }

  lemma SumOverEmpty()
    ensures SumOver([], Burn) == 0
  {
  }

  /** So executing one block twice is not harmless: its registration is refused the second
      time, but only after its stake has been entered again. */
  lemma RepeatedBlockMints(a: Address, h: Digest)
    ensures var w := World(map[a := Account(a, 7, 0)], map[]);
            var tx := Tx(a, a, 7, 1, 0, RegisterValidator, h, false);
            && ExecuteBlock(w, [tx]).error.None?
            && ExecuteChain(w, [[tx], [tx]]) ==
               World(map[a := Account(a, 0, 1)], map[a := Validator(a, 14, 0, 0, true)])
  {
    var w := World(map[a := Account(a, 7, 0)], map[]);
    var tx := Tx(a, a, 7, 1, 0, RegisterValidator, h, false);
    var paid := World(map[a := Account(a, 0, 1)], map[a := Validator(a, 7, 0, 0, true)]);
    assert ExecuteTx(w, tx).world == paid;
    assert ExecuteBlock(w, [tx]).world == paid;
    assert ExecuteBlock(paid, [tx]).world.registry == map[a := Validator(a, 14, 0, 0, true)];
    assert [[tx], [tx]][1..] == [[tx]];
    assert ExecuteChain(paid, [[tx]]) == ExecuteBlock(paid, [tx]).world;
  }
}
