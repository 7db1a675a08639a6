/** The batcher of transaction_batching.go, and how its calls drain the pool. */
module Batching {
  import opened Base
  import opened Ledger
  import opened Sorting
  import opened Batches
  import opened Chain
  import opened Pool

  /** The first `batchSize` transactions of a batch, or all of it if there are fewer. */
  predicate FirstOf(selected: seq<Tx>, batch: seq<Tx>, batchSize: nat) {
    selected <= batch && if |batch| <= batchSize then |selected| == |batch| else |selected| == batchSize
  }

  /** A call of `NextBatch` that goes through the candidates in this order. */
  ghost predicate NextBatchFrom(order: seq<Tx>, p: Pooled, m: Accounts, lim: Limits, batchSize: nat,
                                selected: seq<Tx>, p': Pooled) {
    && ListsEligible(order, p, m)
    && FirstOf(selected, Greedy(order, lim, 0, 0), batchSize)
    && p' == MarkAllUsed(p, selected)
  }

  /** One call of `NextBatch` may return `selected` and leave the pool as `p'`. */
  ghost predicate NextBatchStep(p: Pooled, m: Accounts, lim: Limits, batchSize: nat, selected: seq<Tx>, p': Pooled) {
    exists order :: NextBatchFrom(order, p, m, lim, batchSize, selected, p')
  }

  /** A call returns at most `batchSize` transactions, and fewer only if that is the whole
      greedy batch of the candidates in the order it went through. */
  lemma BatchBounded(p: Pooled, m: Accounts, lim: Limits, batchSize: nat, selected: seq<Tx>, p': Pooled)
    requires NextBatchStep(p, m, lim, batchSize, selected, p')
    ensures |selected| <= batchSize && (lim.maxBatchSize >= 0 ==> |selected| <= lim.maxBatchSize)
    ensures |selected| < batchSize ==>
              exists order :: ListsEligible(order, p, m) && selected == Greedy(order, lim, 0, 0)
  {
    hide Greedy, ListsEligible;
    var order :| NextBatchFrom(order, p, m, lim, batchSize, selected, p');
    GreedyWithinLimits(order, lim, 0, 0);
    if |selected| < batchSize {
      assert selected == Greedy(order, lim, 0, 0);
    }
  }

  class TransactionBatcher {
    const pool: TransactionPool
    const batchSize: nat

    constructor (pool: TransactionPool, batchSize: nat)
      ensures this.pool == pool && this.batchSize == batchSize
    {
      this.pool, this.batchSize := pool, batchSize;
    }

    /** The candidates in descending priority, greedily, cut to `batchSize`. */
    method NextBatch(state: State, priority: Tx -> real) returns (selected: seq<Tx>, ghost order: seq<Tx>)
      requires state.Valid()
      modifies pool
      ensures pool.limits == old(pool.limits)
      ensures SortedBy(order, Higher(priority)) && |selected| <= batchSize
      ensures NextBatchFrom(order, old(pool.transactions), state.accounts, pool.limits, batchSize, selected,
                            pool.transactions)
      ensures NextBatchStep(old(pool.transactions), state.accounts, pool.limits, batchSize, selected, pool.transactions)
    {
      hide Greedy, ListsEligible;
      var batch;
      batch, order := pool.CreateOptimizedBatch(state, priority);
      var max := batchSize;
      if |batch.transactions| < max {
        max := |batch.transactions|;
      }
      selected := batch.transactions[..max];
      for i := 0 to |selected|
        invariant pool.limits == old(pool.limits)
        invariant pool.transactions == MarkAllUsed(old(pool.transactions), selected[..i])
      {
        assert selected[..i + 1][..i] == selected[..i];
        pool.MarkTransactionAsUsed(selected[i].hash);
      }
      assert selected[..|selected|] == selected;
    }
  }

  ghost function Hashes(txs: seq<Tx>): set<Digest> {
    set tx | tx in txs :: tx.hash
  }

  lemma {:induction false} MarkAllUsedAt(p: Pooled, txs: seq<Tx>, h: Digest)
    ensures h in MarkAllUsed(p, txs) <==> h in p
    ensures h in p ==> MarkAllUsed(p, txs)[h] == if h in Hashes(txs) then p[h].(used := true) else p[h]
  {
    if txs != [] {
      var init, last := txs[..|txs| - 1], txs[|txs| - 1];
      assert txs == init + [last];
      MarkAllUsedAt(p, init, h);
    }
  }

  /** A call takes exactly what it returns out of the candidates; and returns something as
      long as one candidate's fee is within the limit. */
  lemma StepDrains(p: Pooled, m: Accounts, lim: Limits, batchSize: nat, selected: seq<Tx>, p': Pooled)
    requires NextBatchStep(p, m, lim, batchSize, selected, p')
    ensures forall tx :: tx in selected ==> tx.hash in EligibleIn(p, m) && p[tx.hash] == tx
    ensures EligibleIn(p', m) == EligibleIn(p, m) - Hashes(selected)
    ensures forall h :: h in EligibleIn(p', m) ==> p'[h] == p[h]
    ensures && batchSize >= 1 && lim.maxBatchSize >= 1
            && (exists h :: h in EligibleIn(p, m) && p[h].fee <= lim.maxBatchFee)
            ==> selected != []
  {
    hide Greedy, Fundable, EligibleIn, ListsEligible, MarkAllUsed, Hashes;
    var order :| NextBatchFrom(order, p, m, lim, batchSize, selected, p');
    ChosenEligible(order, p, m, lim);
    MarkingDrains(p, m, selected);
    ChosenSome(order, p, m, lim);
  }

  lemma ChosenSome(order: seq<Tx>, p: Pooled, m: Accounts, lim: Limits)
    requires ListsEligible(order, p, m)
    ensures lim.maxBatchSize >= 1 && (exists h :: h in EligibleIn(p, m) && p[h].fee <= lim.maxBatchFee) ==>
              Greedy(order, lim, 0, 0) != []
  {
    hide Greedy, Fundable;
    if lim.maxBatchSize >= 1 && exists h :: h in EligibleIn(p, m) && p[h].fee <= lim.maxBatchFee {
      var h :| h in EligibleIn(p, m) && p[h].fee <= lim.maxBatchFee;
      assert p[h] in order;
      GreedyProgress(order, lim, p[h]);
    }
  }

  lemma ChosenEligible(order: seq<Tx>, p: Pooled, m: Accounts, lim: Limits)
    requires ListsEligible(order, p, m)
    ensures forall tx :: tx in Greedy(order, lim, 0, 0) ==> tx.hash in EligibleIn(p, m) && p[tx.hash] == tx
  {
    hide Greedy, Fundable;
    GreedyMembers(order, lim, 0, 0);
  }

  /** Marking transactions as used takes exactly these out of the candidates. */
  lemma MarkingDrains(p: Pooled, m: Accounts, selected: seq<Tx>)
    requires forall tx :: tx in selected ==> tx.hash in EligibleIn(p, m) && p[tx.hash] == tx
    ensures var p' := MarkAllUsed(p, selected);
            && EligibleIn(p', m) == EligibleIn(p, m) - Hashes(selected)
            && forall h :: h in EligibleIn(p', m) ==> p'[h] == p[h]
  {
    hide Fundable;
    var p' := MarkAllUsed(p, selected);
    forall h ensures h in EligibleIn(p', m) <==> h in EligibleIn(p, m) - Hashes(selected)
             ensures h in EligibleIn(p', m) ==> p'[h] == p[h] {
      MarkAllUsedAt(p, selected, h);
    }
  }

  /** A run of calls on a fixed state, with nothing added to or removed from the pool. */
  ghost predicate Run(pools: seq<Pooled>, batches: seq<seq<Tx>>, m: Accounts, lim: Limits, batchSize: nat) {
    && |pools| == |batches| + 1
    && forall i :: 0 <= i < |batches| ==> NextBatchStep(pools[i], m, lim, batchSize, batches[i], pools[i + 1])
  }

  lemma {:induction false} RunShrinks(pools: seq<Pooled>, batches: seq<seq<Tx>>, m: Accounts, lim: Limits,
                      batchSize: nat, i: nat, j: nat)
    requires Run(pools, batches, m, lim, batchSize) && i <= j < |pools|
    ensures EligibleIn(pools[j], m) <= EligibleIn(pools[i], m)
    ensures forall h :: h in EligibleIn(pools[j], m) ==> pools[j][h] == pools[i][h]
    decreases j - i
  {
    hide NextBatchStep, EligibleIn;
    if i < j {
      RunShrinks(pools, batches, m, lim, batchSize, i, j - 1);
      StepDrains(pools[j - 1], m, lim, batchSize, batches[j - 1], pools[j]);
    }
  }

  /** No transaction is returned by two calls. */
  lemma BatchesDisjoint(pools: seq<Pooled>, batches: seq<seq<Tx>>, m: Accounts, lim: Limits,
                      batchSize: nat, i: nat, j: nat)
    requires Run(pools, batches, m, lim, batchSize) && i < j < |batches|
    ensures Hashes(batches[i]) !! Hashes(batches[j])
  {
    hide NextBatchStep, EligibleIn;
    StepDrains(pools[i], m, lim, batchSize, batches[i], pools[i + 1]);
    RunShrinks(pools, batches, m, lim, batchSize, i + 1, j);
    StepDrains(pools[j], m, lim, batchSize, batches[j], pools[j + 1]);
  }

  /** What is still a candidate was one at the start and was never returned, and vice versa. */
  lemma {:induction false} LeftOver(pools: seq<Pooled>, batches: seq<seq<Tx>>, m: Accounts, lim: Limits,
                    batchSize: nat, h: Digest, k: nat)
    requires Run(pools, batches, m, lim, batchSize) && k < |pools|
    requires h in EligibleIn(pools[0], m)
    ensures h in EligibleIn(pools[k], m) || exists i :: 0 <= i < k && h in Hashes(batches[i])
  {
    hide NextBatchStep, EligibleIn;
    if k > 0 {
      LeftOver(pools, batches, m, lim, batchSize, h, k - 1);
      StepDrains(pools[k - 1], m, lim, batchSize, batches[k - 1], pools[k]);
    }
  }

  /** As long as an affordable candidate is left, every call so far took at least one. */
  lemma {:induction false} EveryCallTakesOne(pools: seq<Pooled>, batches: seq<seq<Tx>>, m: Accounts, lim: Limits,
                    batchSize: nat, h: Digest, k: nat)
    requires Run(pools, batches, m, lim, batchSize) && k < |pools|
    requires batchSize >= 1 && lim.maxBatchSize >= 1
    requires h in EligibleIn(pools[k], m) && pools[k][h].fee <= lim.maxBatchFee
    ensures |EligibleIn(pools[k], m)| <= |EligibleIn(pools[0], m)| - k
  {
    hide NextBatchStep, EligibleIn;
    if k > 0 {
      var p, p' := pools[k - 1], pools[k];
      StepDrains(p, m, lim, batchSize, batches[k - 1], p');
      EveryCallTakesOne(pools, batches, m, lim, batchSize, h, k - 1);
      assert batches[k - 1] != [];
      var tx := batches[k - 1][0];
      assert tx.hash in EligibleIn(p, m) && tx.hash in Hashes(batches[k - 1]);
      SmallerSet(EligibleIn(p', m), EligibleIn(p, m), tx.hash);
    }
  }

  lemma SmallerSet<T>(a: set<T>, b: set<T>, x: T)
    requires a <= b && x in b && x !in a
    ensures |a| < |b|
  {
    assert b == a + (b - a);
    assert |b - a| > 0;
  }

  /** Within as many calls as there are candidates, every candidate whose fee is within the
      limit has been returned, whatever the priorities. */
  lemma PoolDrained(pools: seq<Pooled>, batches: seq<seq<Tx>>, m: Accounts, lim: Limits,
                    batchSize: nat, h: Digest)
    requires Run(pools, batches, m, lim, batchSize)
    requires batchSize >= 1 && lim.maxBatchSize >= 1
    requires |batches| >= |EligibleIn(pools[0], m)|
    requires h in EligibleIn(pools[0], m) && pools[0][h].fee <= lim.maxBatchFee
    ensures exists i :: 0 <= i < |batches| && h in Hashes(batches[i])
  {
    hide NextBatchStep, EligibleIn;
    var k := |batches|;
    LeftOver(pools, batches, m, lim, batchSize, h, k);
    if h in EligibleIn(pools[k], m) {
      RunShrinks(pools, batches, m, lim, batchSize, 0, k);
      EveryCallTakesOne(pools, batches, m, lim, batchSize, h, k);
    }
  }
}
