/**
 The transaction pool: admission, and the greedy selection of a batch from candidates
 that were each validated on their own.
 */
module Pool {
  import opened Base
  import opened Sums
  import opened Ledger
  import opened Sorting
  import opened Batches
  import opened Chain
  import Conservation

  /** Transactions are kept under their own hash. */
  type Pooled = m: map<Digest, Tx> | forall h :: h in m ==> m[h].hash == h
    witness map[]

  const TX_SIZE := 200
  const SIZE_LIMIT := 1000000

  datatype Limits = Limits(maxBatchSize: int, maxBatchFee: Word)

  /** A candidate for a batch. */
  predicate Eligible(m: Accounts, tx: Tx) {
    !tx.used && Fundable(m, tx)
  }

  ghost function EligibleIn(p: Pooled, m: Accounts): set<Digest> {
    set h | h in p && Eligible(m, p[h])
  }

  function HashOfTx(tx: Tx): Digest { tx.hash }

  /** All candidates, each once, in some order. */
  ghost predicate ListsEligible(order: seq<Tx>, p: Pooled, m: Accounts) {
    && (forall tx :: tx in order <==> tx.hash in p && p[tx.hash] == tx && Eligible(m, tx))
    && DistinctBy(order, HashOfTx)
  }

  predicate Fits(tx: Tx, lim: Limits, n: nat, fee: Word) {
    Plus(fee, tx.fee) <= lim.maxBatchFee && TX_SIZE * n + TX_SIZE <= SIZE_LIMIT
  }

  /** The greedy pass over the candidates in priority order: stop when the batch is full,
      skip what would exceed the fee or the size limit. `n` and `fee` are what the batch
      holds so far. */
  function Greedy(order: seq<Tx>, lim: Limits, n: nat, fee: Word): seq<Tx>
    decreases |order|
  {
    if order == [] || n >= lim.maxBatchSize then []
    else if !Fits(order[0], lim, n, fee) then
      Greedy(order[1..], lim, n, fee)
    else
      [order[0]] + Greedy(order[1..], lim, n + 1, Plus(fee, order[0].fee))
  }

  ghost function FeeOf(tx: Tx): int { tx.fee }

  ghost predicate Subsequence<T>(s: seq<T>, t: seq<T>)
    decreases |t|
  {
    if s == [] then true
    else if t == [] then false
    else if s[0] == t[0] && Subsequence(s[1..], t[1..]) then true
    else Subsequence(s, t[1..])
  }

  /** A batch keeps the order of priority and the limits on number and size. */
  lemma {:induction false} GreedyWithinLimits(order: seq<Tx>, lim: Limits, n: nat, fee: Word)
    requires 200 * n <= 1000000
    ensures var batch := Greedy(order, lim, n, fee);
            && Subsequence(batch, order)
            && (batch != [] ==> n + |batch| <= lim.maxBatchSize)
            && 200 * (n + |batch|) <= 1000000
    decreases |order|
  {
    if order != [] && n < lim.maxBatchSize {
      if !Fits(order[0], lim, n, fee) {
        GreedyWithinLimits(order[1..], lim, n, fee);
      } else {
        GreedyWithinLimits(order[1..], lim, n + 1, Plus(fee, order[0].fee));
        var rest := Greedy(order[1..], lim, n + 1, Plus(fee, order[0].fee));
        assert ([order[0]] + rest)[1..] == rest;
      }
    }
  }

  /** Some transaction gets in because adding its fee to the running total wraps. */
  ghost predicate FeeWraps(order: seq<Tx>, lim: Limits, n: nat, fee: Word)
    decreases |order|
  {
    if order == [] || n >= lim.maxBatchSize then false
    else if !Fits(order[0], lim, n, fee) then FeeWraps(order[1..], lim, n, fee)
    else fee + order[0].fee >= WORD || FeeWraps(order[1..], lim, n + 1, Plus(fee, order[0].fee))
  }

  /** The fees of a batch stay within the limit exactly when no running total wraps. */
  lemma {:induction false} GreedyFeeLimit(order: seq<Tx>, lim: Limits, n: nat, fee: Word)
    requires fee <= lim.maxBatchFee
    ensures fee + SumOver(Greedy(order, lim, n, fee), FeeOf) <= lim.maxBatchFee <==> !FeeWraps(order, lim, n, fee)
    decreases |order|
  {
    hide Wrap;
    if order != [] && n < lim.maxBatchSize {
      if !Fits(order[0], lim, n, fee) {
        GreedyFeeLimit(order[1..], lim, n, fee);
      } else {
        var rest := Greedy(order[1..], lim, n + 1, Plus(fee, order[0].fee));
        GreedyFeeLimit(order[1..], lim, n + 1, Plus(fee, order[0].fee));
        SumOverHead([order[0]] + rest, FeeOf);
        assert ([order[0]] + rest)[1..] == rest;
        FeesNonNegative(rest);
        Conservation.PlusWraps(fee, order[0].fee);
      }
    }
  }

  /** Which is so whenever no single fee is within the limit's distance of 2^64. */
  lemma {:induction false} ModestFeesDoNotWrap(order: seq<Tx>, lim: Limits, n: nat, fee: Word)
    requires fee <= lim.maxBatchFee
    requires forall tx :: tx in order ==> lim.maxBatchFee + tx.fee < WORD
    ensures !FeeWraps(order, lim, n, fee)
    decreases |order|
  {
    if order != [] && n < lim.maxBatchSize {
      assert order[0] in order;
      if Fits(order[0], lim, n, fee) {
        ModestFeesDoNotWrap(order[1..], lim, n + 1, Plus(fee, order[0].fee));
      } else {
        ModestFeesDoNotWrap(order[1..], lim, n, fee);
      }
    }
  }

  /** Otherwise not: `value + fee` of `y` wraps to what its sender owns, and its fee is then
      added to that of `x`, which takes the running total around 2^64 and below the limit.
      The fee-to-value ratio puts `x`, without a value, ahead of `y`. */
  lemma WrappedFeesExceedLimit(a: Address, b: Address, g: Digest, h: Digest, priority: Tx -> real)
    requires a != b && g != h
    requires priority(SmallFee(a, g)) > priority(HugeFee(b, h))
    ensures var x, y := SmallFee(a, g), HugeFee(b, h);
            var m: Accounts := map[a := Account(a, 500, 0), b := Account(b, WORD / 2, 0)];
            && ListsEligible([x, y], map[g := x, h := y], m)
            && SortedBy([x, y], Higher(priority))
            && Greedy([x, y], Limits(100, 1000), 0, 0) == [x, y]
            && SumOver([x, y], FeeOf) > 1000
  {
    var x, y := SmallFee(a, g), HugeFee(b, h);
    assert [x, y][1..] == [y];
    assert Greedy([y], Limits(100, 1000), 1, 500) == [y] + Greedy([], Limits(100, 1000), 2, 499);
    assert SumOver([y], FeeOf) == WORD - 1;
  }

  function SmallFee(a: Address, g: Digest): Tx {
    Tx(a, a, 0, 1, 500, Transfer, g, false)
  }

  function HugeFee(b: Address, h: Digest): Tx {
    Tx(b, b, WORD / 2 + 1, 1, WORD - 1, Transfer, h, false)
  }

  /** `calculatePriority` over the reals. `age` is at most 1, the cap of the age factor. */
  function FeePriority(tx: Tx, age: real): real {
    if tx.value == 0 then tx.fee as real
    else
      var multiplier :=
        match tx.kind
        case RegisterValidator => 2.0
        case Delegate => 1.5
        case Participation => 1.2
        case Transfer => 1.0
        case Unknown(_) => 1.0;
      (tx.fee as real / tx.value as real + age * 0.1) * multiplier
  }

  /** With these priorities the order above is the one that sorting produces, at any age. */
  lemma SmallFeeFirst(a: Address, b: Address, g: Digest, h: Digest, s: real, t: real)
    requires t <= 1.0
    ensures FeePriority(SmallFee(a, g), s) > FeePriority(HugeFee(b, h), t)
  {
    var fee, value := (WORD - 1) as real, (WORD / 2 + 1) as real;
    assert fee / value < 2.0;
  }

  /** And a batch is maximal: what was left out no longer fits. */
  lemma {:induction false} GreedyMaximal(order: seq<Tx>, lim: Limits, n: nat, fee: Word, tx: Tx)
    requires fee <= lim.maxBatchFee && TX_SIZE * n <= SIZE_LIMIT
    requires !FeeWraps(order, lim, n, fee)
    requires tx in order && tx !in Greedy(order, lim, n, fee)
    ensures var batch := Greedy(order, lim, n, fee);
            || n + |batch| >= lim.maxBatchSize
            || TX_SIZE * (n + |batch|) + TX_SIZE > SIZE_LIMIT
            || fee + SumOver(batch, FeeOf) + tx.fee > lim.maxBatchFee
    decreases |order|
  {
    hide Wrap;
    if n < lim.maxBatchSize {
      assert order == [order[0]] + order[1..];
      Conservation.PlusWraps(fee, order[0].fee);
      if !Fits(order[0], lim, n, fee) {
        GreedyWithinLimits(order[1..], lim, n, fee);
        FeesNonNegative(Greedy(order[1..], lim, n, fee));
        if tx in order[1..] {
          GreedyMaximal(order[1..], lim, n, fee, tx);
        }
      } else {
        var rest := Greedy(order[1..], lim, n + 1, Plus(fee, order[0].fee));
        assert ([order[0]] + rest)[1..] == rest;
        assert Greedy(order, lim, n, fee) == [order[0]] + rest;
        GreedyMaximal(order[1..], lim, n + 1, Plus(fee, order[0].fee), tx);
      }
    }
  }

  lemma {:induction false} FeesNonNegative(txs: seq<Tx>)
    ensures SumOver(txs, FeeOf) >= 0
  {
    if txs != [] {
      FeesNonNegative(txs[1..]);
    }
  }

  /** The first candidate whose fee the limit allows always gets in: no wrap-around and no
      other candidate can keep the batch empty. */
  lemma {:induction false} GreedyProgress(order: seq<Tx>, lim: Limits, tx: Tx)
    requires lim.maxBatchSize >= 1 && tx in order && tx.fee <= lim.maxBatchFee
    ensures Greedy(order, lim, 0, 0) != []
    decreases |order|
  {
    if !Fits(order[0], lim, 0, 0) {
      assert order == [order[0]] + order[1..];
      GreedyProgress(order[1..], lim, tx);
    }
  }

  lemma {:induction false} GreedyMembers(order: seq<Tx>, lim: Limits, n: nat, fee: Word)
    requires DistinctBy(order, HashOfTx)
    ensures var batch := Greedy(order, lim, n, fee);
            (forall tx :: tx in batch ==> tx in order) && DistinctBy(batch, HashOfTx)
    decreases |order|
  {
    if order != [] && n < lim.maxBatchSize {
      var tail := order[1..];
      forall i, j | 0 <= i < j < |tail| ensures HashOfTx(tail[i]) != HashOfTx(tail[j]) {
        assert HashOfTx(order[i + 1]) != HashOfTx(order[j + 1]);
      }
      if !Fits(order[0], lim, n, fee) {
        GreedyMembers(tail, lim, n, fee);
      } else {
        GreedyMembers(tail, lim, n + 1, Plus(fee, order[0].fee));
        var rest := Greedy(tail, lim, n + 1, Plus(fee, order[0].fee));
        forall i | 0 <= i < |rest| ensures HashOfTx(rest[i]) != HashOfTx(order[0]) {
          assert rest[i] in tail;
          var j :| 0 <= j < |tail| && tail[j] == rest[i];
          assert HashOfTx(order[0]) != HashOfTx(order[j + 1]);
        }
      }
    }
  }

  // ---- The pool ----

  datatype TransactionBatch = TransactionBatch(transactions: seq<Tx>, totalFee: Word, totalSize: nat)

  function MarkUsed(p: Pooled, h: Digest): Pooled {
    if h in p then p[h := p[h].(used := true)] else p
  }

  function MarkAllUsed(p: Pooled, txs: seq<Tx>): Pooled {
    if txs == [] then p else MarkUsed(MarkAllUsed(p, txs[..|txs| - 1]), txs[|txs| - 1].hash)
  }

  /** One turn of the greedy loop. */
  lemma GreedyStep(chosen: seq<Tx>, rest: seq<Tx>, lim: Limits, fee: Word)
    requires rest != [] && |chosen| < lim.maxBatchSize
    ensures var fits := Fits(rest[0], lim, |chosen|, fee);
            chosen + Greedy(rest, lim, |chosen|, fee) ==
            if fits then (chosen + [rest[0]]) + Greedy(rest[1..], lim, |chosen| + 1, Plus(fee, rest[0].fee))
            else chosen + Greedy(rest[1..], lim, |chosen|, fee)
  {
  }

  lemma GreedyEnds(rest: seq<Tx>, lim: Limits, n: nat, fee: Word)
    requires rest == [] || n >= lim.maxBatchSize
    ensures Greedy(rest, lim, n, fee) == []
  {
  }

  class TransactionPool {
    var transactions: Pooled
    var limits: Limits

    constructor ()
      ensures transactions == map[] && limits == Limits(100, 1000)
    {
      transactions := map[];
      limits := Limits(100, 1000);
    }

    /** Admission. `verified` is the outcome of the signature check and `signer` the address
        of the key; a participation is checked for duplicates only. */
    method AddTransaction(tx: Tx, verified: bool, signer: Address, state: State) returns (ok: bool)
      requires state.Valid()
      modifies this
      ensures limits == old(limits)
      ensures ok <==> verified && tx.hash !in old(transactions)
                      && (tx.kind.Participation? ||
                          (Fundable(state.accounts, tx.(from := signer))
                           && (tx.kind.RegisterValidator? || tx.kind.Delegate? ==> tx.value != 0)))
      ensures transactions == if ok then old(transactions)[tx.hash := tx] else old(transactions)
    {
      if !verified || tx.hash in transactions {
        return false;
      }
      if !tx.kind.Participation? {
        if (tx.kind.RegisterValidator? || tx.kind.Delegate?) && tx.value == 0 {
          return false;
        }
        var sender := state.GetAccount(signer);
        if tx.nonce != Plus(sender.nonce, 1) || Plus(tx.value, tx.fee) > sender.balance {
          return false;
        }
      }
      transactions := transactions[tx.hash := tx];
      return true;
    }

    method RemoveTransaction(h: Digest)
      modifies this
      ensures limits == old(limits)
      ensures h !in transactions && transactions.Keys <= old(transactions).Keys
      ensures forall k :: k != h && k in old(transactions) ==>
                k in transactions && transactions[k] == old(transactions)[k]
    {
      transactions := transactions - {h};
    }

    method MarkTransactionAsUsed(h: Digest)
      modifies this
      ensures transactions == MarkUsed(old(transactions), h) && limits == old(limits)
    {
      if h in transactions {
        transactions := transactions[h := transactions[h].(used := true)];
      }
    }

    /** The candidates, in whatever order the map yields them. */
    method Candidates(state: State) returns (valid: seq<Tx>)
      requires state.Valid()
      ensures ListsEligible(valid, transactions, state.accounts)
    {
      hide State.Valid, Wrap;
      valid := [];
      var rest := transactions.Keys;
      while rest != {}
        invariant rest <= transactions.Keys
        invariant forall tx :: tx in valid <==>
                    tx.hash in transactions.Keys - rest && transactions[tx.hash] == tx && Eligible(state.accounts, tx)
        invariant DistinctBy(valid, HashOfTx)
        decreases |rest|
      {
        var h :| h in rest;
        var tx := transactions[h];
        rest := rest - {h};
        var sender := state.GetAccount(tx.from);
        if !tx.used && tx.nonce == Plus(sender.nonce, 1) && Plus(tx.value, tx.fee) <= sender.balance {
          forall i | 0 <= i < |valid| ensures HashOfTx(valid[i]) != h { assert valid[i] in valid; }
          valid := valid + [tx];
        }
      }
    }

    /** The greedy batch over the candidates sorted by some priority. */
    method CreateOptimizedBatch(state: State, priority: Tx -> real)
      returns (batch: TransactionBatch, ghost order: seq<Tx>)
      requires state.Valid()
      ensures ListsEligible(order, transactions, state.accounts)
      ensures SortedBy(order, Higher(priority))
      ensures batch.transactions == Greedy(order, limits, 0, 0)
      ensures batch.totalFee == Wrap(SumOver(batch.transactions, FeeOf))
      ensures batch.totalSize == TX_SIZE * |batch.transactions|
    {
      var valid := Candidates(state);
      var sorted := Sort(valid, Higher(priority));
      order := sorted;
      PermutationDistinct(valid, sorted, HashOfTx);
      batch := Fill(sorted);
    }

    method Fill(sorted: seq<Tx>) returns (batch: TransactionBatch)
      ensures batch.transactions == Greedy(sorted, limits, 0, 0)
      ensures batch.totalFee == Wrap(SumOver(batch.transactions, FeeOf))
      ensures batch.totalSize == TX_SIZE * |batch.transactions|
    {
      hide Wrap, Greedy;
      WrapOfWord(0);
      var chosen: seq<Tx> := [];
      var totalFee: Word := 0;
      var totalSize: nat := 0;
      var i := 0;
      assert sorted[0..] == sorted;
      while i < |sorted| && |chosen| < limits.maxBatchSize
        invariant 0 <= i <= |sorted|
        invariant Greedy(sorted, limits, 0, 0) == chosen + Greedy(sorted[i..], limits, |chosen|, totalFee)
        invariant totalFee == Wrap(SumOver(chosen, FeeOf)) && totalSize == TX_SIZE * |chosen|
      {
        var tx := sorted[i];
        assert sorted[i..][0] == tx && sorted[i..][1..] == sorted[i + 1..];
        GreedyStep(chosen, sorted[i..], limits, totalFee);
        if Plus(totalFee, tx.fee) <= limits.maxBatchFee && totalSize + TX_SIZE <= SIZE_LIMIT {
          SumOverAppend(chosen, [tx], FeeOf);
          WrapAbsorbs(SumOver(chosen, FeeOf), tx.fee);
          SumOverHead([tx], FeeOf);
          chosen := chosen + [tx];
          totalFee := Plus(totalFee, tx.fee);
          totalSize := totalSize + TX_SIZE;
        }
        i := i + 1;
      }
      GreedyEnds(sorted[i..], limits, |chosen|, totalFee);
      batch := TransactionBatch(chosen, totalFee, totalSize);
    }
  }

  function Higher(priority: Tx -> real): (Tx, Tx) -> bool {
    (x: Tx, y: Tx) => priority(x) > priority(y)
  }

  /** Whatever the pool chooses from a state executes on that state, in every order and to
      one result, exactly when no sender was chosen twice and every choice is executable. */
  lemma ChosenBatchApplies(w: World, p: Pooled, order: seq<Tx>, lim: Limits)
    requires ListsEligible(order, p, w.accounts)
    requires SumMap(w.accounts, Conservation.BalanceOf) < WORD
    requires forall h :: h in p ==> !Conservation.DueWraps(p[h])
    ensures var batch := Greedy(order, lim, 0, 0);
            AppliesInEveryOrder(w, batch) <==>
            DistinctSenders(batch) && forall tx :: tx in batch ==> Executable(w.registry, tx)
  {
    var batch := Greedy(order, lim, 0, 0);
    GreedyMembers(order, lim, 0, 0);
    forall tx | tx in batch ensures Fundable(w.accounts, tx) && !Conservation.DueWraps(tx) {
      assert tx in order;
    }
    EveryOrderApplies(w, batch);
  }

  /** And it can go wrong: two transfers of one account, each with its next nonce, are both
      candidates and both chosen, and the second one is refused when the batch executes. */
  lemma SameSenderBatchFails(a: Address, b: Address, g: Digest, h: Digest)
    requires a != b && g != h
    ensures var x, y := Tx(a, b, 1, 1, 1, Transfer, g, false), Tx(a, b, 2, 1, 1, Transfer, h, false);
            var w := World(map[a := Account(a, 10, 0)], map[]);
            && ListsEligible([x, y], map[g := x, h := y], w.accounts)
            && Greedy([x, y], Limits(100, 1000), 0, 0) == [x, y]
            && ExecuteBlock(w, [x, y]).applied == 1 && ExecuteBlock(w, [x, y]).error == Some(InvalidNonce)
  {
    var x, y := Tx(a, b, 1, 1, 1, Transfer, g, false), Tx(a, b, 2, 1, 1, Transfer, h, false);
    var w := World(map[a := Account(a, 10, 0)], map[]);
    assert [x, y][1..] == [y];
    assert Greedy([y], Limits(100, 1000), 1, 1) == [y] + Greedy([], Limits(100, 1000), 2, 2);
    var w' := ExecuteTx(w, x).world;
    assert GetAccount(w'.accounts, a) == Account(a, 8, 1);
    assert ExecuteBlock(w', [y]) == ExecuteTx(w', y);
  }
}
