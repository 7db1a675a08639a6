/** What the runs of the protocol do to the chain and to the ledger. */
module ConsensusLedger {
  import opened Base
  import opened Ledger
  import opened Approvals
  import opened Consensus
  import opened Replay

  /** The block that a step executes: a claimed one, or one's own. */
  ghost function ExecutedBy(n: Node, e: Event): Option<Block> {
    if e.Produce? then Some(e.block)
    else if e.RunTask? && e.task in n.tasks && e.task.block.hash in n.pending then Some(e.task.block)
    else None
  }

  lemma ExecutedStep(n: Node, e: Event)
    ensures Next(n, e).executed == n.executed + if ExecutedBy(n, e).Some? then [ExecutedBy(n, e).value.txs] else []
  {
    hide Approved, EarlyTracker, Acceptable;
  }

  /** The block that the first `i` events of a run executed last. */
  ghost function LastExecuted(n: Node, es: seq<Event>, i: nat): Option<Block>
    requires i <= |es|
  {
    if i == 0 then None
    else
      var e := ExecutedBy(After(n, es, i - 1), es[i - 1]);
      if e.Some? then e else LastExecuted(n, es, i - 1)
  }

  lemma KeepsChain(n: Node, e: Event)
    requires ExecutedBy(n, e).None?
    ensures Next(n, e).height == n.height && Next(n, e).chain == n.chain
  {
    hide ReceiveBlock, ReceiveApproval, Tick, Finalize, AddAndExecute;
    match e
    case DeliverBlock(b) => BlockKeepsChain(n, b);
    case DeliverApproval(h, a) => ApprovalKeepsChain(n, h, a);
    case WatchTick(b) => TickKeepsChain(n, b);
    case RunTask(task) => LostTaskKeepsChain(n, task);
    case _ =>
  }

  lemma TickKeepsChain(n: Node, b: Block)
    ensures Tick(n, b).height == n.height && Tick(n, b).chain == n.chain
  {
    hide Approved;
  }

  lemma LostTaskKeepsChain(n: Node, task: Task)
    requires task !in n.tasks || task.block.hash !in n.pending
    ensures Finalize(n, task).height == n.height && Finalize(n, task).chain == n.chain
  {
    hide AddAndExecute;
  }

  lemma BlockKeepsChain(n: Node, b: Block)
    ensures ReceiveBlock(n, b).height == n.height && ReceiveBlock(n, b).chain == n.chain
  {
    hide Approved, EarlyTracker, Acceptable, Accepts, Signed;
  }

  lemma ApprovalKeepsChain(n: Node, h: Digest, a: Address)
    ensures ReceiveApproval(n, h, a).height == n.height && ReceiveApproval(n, h, a).chain == n.chain
  {
    hide Approved, Accepts, Signed;
  }

  lemma BecomesTip(n: Node, e: Event)
    requires ExecutedBy(n, e).Some?
    ensures var m := Next(n, e); var b := ExecutedBy(n, e).value;
            m.height == b.number && (b.number != 0 ==> b.number in m.chain && m.chain[b.number] == b)
  {
    hide ReceiveBlock, ReceiveApproval, Tick;
  }

  /** It is the block at the current height. */
  lemma {:induction false} LastIsTip(n: Node, es: seq<Event>, i: nat)
    requires i <= |es| && LastExecuted(n, es, i).Some?
    ensures var m := After(n, es, i); var c := LastExecuted(n, es, i).value;
            m.height == c.number && (c.number != 0 ==> c.number in m.chain && m.chain[c.number] == c)
  {
    hide Next, ExecutedBy;
    if ExecutedBy(After(n, es, i - 1), es[i - 1]).None? {
      KeepsChain(After(n, es, i - 1), es[i - 1]);
      LastIsTip(n, es, i - 1);
    } else {
      BecomesTip(After(n, es, i - 1), es[i - 1]);
    }
  }

  lemma {:induction false} SomeExecuted(n: Node, es: seq<Event>, k: nat, i: nat)
    requires k < i <= |es| && ExecutedBy(After(n, es, k), es[k]).Some?
    ensures LastExecuted(n, es, i).Some?
  {
    hide Next, ExecutedBy;
    if k < i - 1 {
      SomeExecuted(n, es, k, i - 1);
    }
  }

  /** The chain holds the hash of `b` under no other number. */
  ghost predicate HashIdentifies(chain: map<Word, Block>, b: Block) {
    forall k :: k in chain && chain[k].hash == b.hash ==> k == b.number
  }

  /** A block under approval, or one that the block executed last, `c`, has left behind: it
      lies below `c`, or too far above it, or is what the chain holds at the number of `c`.
      At number 0 that is always the genesis block, whatever was executed. */
  ghost predicate Stale(n: Node, b: Block, c: Block) {
    || b.hash in n.pending || b.number < c.number || b.number > Plus(c.number, CATCH_UP)
    || (b.number == c.number && b.number in n.chain && n.chain[b.number].hash == b.hash)
  }

  /** Except at number 0, the chain holds `c` there. */
  lemma {:induction false} StaleAboveGenesis(n: Node, es: seq<Event>, i: nat, b: Block)
    requires i <= |es| && LastExecuted(n, es, i).Some? && b.number != 0
    ensures var m := After(n, es, i); var c := LastExecuted(n, es, i).value;
            Stale(m, b, c) <==>
            || b.hash in m.pending || b.number < c.number || b.number > Plus(c.number, 10)
            || (b.number == c.number && b.hash == c.hash)
  {
    hide Next, After, ExecutedBy, LastExecuted, Wrap;
    LastIsTip(n, es, i);
  }

  lemma DeliveryIgnoredIff(n: Node, b: Block)
    ensures Next(n, DeliverBlock(b)) == n <==> !Acceptable(n, b)
  {
    hide Approved, Acceptable, EarlyTracker;
    if Acceptable(n, b) {
      assert Next(n, DeliverBlock(b)).nextId == n.nextId + 1;
    }
  }

  /** A block was executed, and the run went on. Delivered again it is ignored if it is stale;
      and, since a hash goes with one number, only then: a block above number 0 is ignored
      exactly until another block of its number, or one up to ten lower, is executed. */
  lemma {:induction false} ExecutedIsKnown(n: Node, es: seq<Event>, k: nat, i: nat, b: Block)
    requires k < i <= |es| && ExecutedBy(After(n, es, k), es[k]) == Some(b)
    ensures LastExecuted(n, es, i).Some?
    ensures var m := After(n, es, i); var c := LastExecuted(n, es, i).value;
            && (Stale(m, b, c) ==> Next(m, DeliverBlock(b)) == m)
            && (HashIdentifies(m.chain, b) ==> (Next(m, DeliverBlock(b)) == m <==> Stale(m, b, c)))
  {
    hide Next, After, ExecutedBy, LastExecuted;
    SomeExecuted(n, es, k, i);
    LastIsTip(n, es, i);
    DeliveryIgnoredIff(After(n, es, i), b);
  }

  lemma {:induction false} ExecuteChainAppend(w: World, blocks: seq<seq<Tx>>, txs: seq<Tx>)
    ensures ExecuteChain(w, blocks + [txs]) == ExecuteBlock(ExecuteChain(w, blocks), txs).world
    decreases |blocks|
  {
    hide ExecuteBlock;
    if blocks == [] {
      assert ([] + [txs])[1..] == [];
    } else {
      ExecuteChainAppend(ExecuteBlock(w, blocks[0]).world, blocks[1..], txs);
      assert (blocks + [txs])[1..] == blocks[1..] + [txs];
    }
  }

  /** The world that a node started in `w` is in: what its executed blocks lead to. */
  ghost function WorldOf(w: World, n: Node): World {
    ExecuteChain(w, n.executed)
  }

  /** A step changes the world by executing the block it claims or produces, and only then. */
  lemma WorldStep(w: World, n: Node, e: Event)
    ensures WorldOf(w, Next(n, e)) ==
            match ExecutedBy(n, e)
            case None => WorldOf(w, n)
            case Some(b) => ExecuteBlock(WorldOf(w, n), b.txs).world
  {
    hide Next, ExecuteBlock, ExecuteChain, ExecutedBy;
    ExecutedStep(n, e);
    if ExecutedBy(n, e).Some? {
      ExecuteChainAppend(w, n.executed, ExecutedBy(n, e).value.txs);
    } else {
      assert n.executed + [] == n.executed;
    }
  }

  /** Whatever is delivered, in whatever order and however often, a node never applies one
      (sender, nonce) pair twice, and its accounts are those that the applied transactions
      lead to. */
  lemma {:induction false} RunNeverReplays(w: World, n: Node, es: seq<Event>, i: nat, p: nat, q: nat)
    requires i <= |es|
    requires var log := AppliedLog(w, After(n, es, i).executed);
             p < q < |log| && log[p].from == log[q].from && SentBy(log, log[p].from) <= WORD
    ensures var log := AppliedLog(w, After(n, es, i).executed);
            log[p].nonce != log[q].nonce && AccountsAfter(w.accounts, log) == WorldOf(w, After(n, es, i)).accounts
  {
    hide Next, After, AppliedLog, AccountsAfter, SentBy;
    LogExplainsAccounts(w, After(n, es, i).executed);
    NoReplay(w, After(n, es, i).executed, p, q);
  }
}
