/** Runs in which the protocol does what one would not expect of it. */
module ConsensusCases {
  import opened Base
  import opened Ledger
  import opened Approvals
  import opened Consensus
  import opened ConsensusLedger
  import opened RunSupply

  /** A node outside a committee of one, with genesis block `g`, and what it goes through when a finalise task is
      late: deliver, approve, time out, deliver again, run the task. */
  ghost function LateNode(self: Address, a: Address, g: Block, b: Block, k: nat): Node {
    var n := Node(self, [a], map[], map[], multiset{}, multiset{}, map[0 := g], 0, 0, {}, [], []);
    var late := n.(tasks := multiset{Task(b, 0)}, spawned := {0});
    if k == 0 then n
    else if k == 1 then n.(pending := map[b.hash := Tracker(0, b, [a], {})], watchers := multiset{b}, nextId := 1)
    else if k == 2 then late.(pending := map[b.hash := Tracker(0, b, [a], {a})], watchers := multiset{b}, nextId := 1)
    else if k == 3 then late.(nextId := 1)
    else late.(pending := map[b.hash := Tracker(1, b, [a], {})], watchers := multiset{b}, nextId := 2)
  }

  ghost function LateEvents(a: Address, b: Block): seq<Event> {
    [DeliverBlock(b), DeliverApproval(b.hash, a), WatchTimeout(b), DeliverBlock(b), RunTask(Task(b, 0))]
  }

  lemma LateDelivery(self: Address, a: Address, g: Block, b: Block, k: nat)
    requires self != a && b.number <= 10 && g.hash != b.hash && (k == 0 || k == 3)
    ensures Next(LateNode(self, a, g, b, k), DeliverBlock(b)) == LateNode(self, a, g, b, k + 1)
  {
    var n := LateNode(self, a, g, b, k);
    assert n.committee == [a] && self !in n.committee;
    assert Acceptable(n, b);
    assert EarlyTracker(n, b) == Tracker(n.nextId, b, [a], {});
  }

  lemma LateApproval(self: Address, a: Address, g: Block, b: Block)
    ensures Next(LateNode(self, a, g, b, 1), DeliverApproval(b.hash, a)) == LateNode(self, a, g, b, 2)
  {
    var t := Tracker(0, b, [a], {});
    assert Signed(t, a) == Tracker(0, b, [a], {a});
  }

  lemma LateTimeout(self: Address, a: Address, g: Block, b: Block)
    ensures Next(LateNode(self, a, g, b, 2), WatchTimeout(b)) == LateNode(self, a, g, b, 3)
  {
  }

  lemma LateRun(self: Address, a: Address, g: Block, b: Block)
    requires self != a && b.number <= 10 && g.hash != b.hash
    ensures After(LateNode(self, a, g, b, 0), LateEvents(a, b), 4) == LateNode(self, a, g, b, 4)
  {
    hide LateNode, Next;
    var n, es := LateNode(self, a, g, b, 0), LateEvents(a, b);
    LateDelivery(self, a, g, b, 0);
    assert After(n, es, 1) == LateNode(self, a, g, b, 1);
    LateApproval(self, a, g, b);
    assert After(n, es, 2) == LateNode(self, a, g, b, 2);
    LateTimeout(self, a, g, b);
    assert After(n, es, 3) == LateNode(self, a, g, b, 3);
    LateDelivery(self, a, g, b, 3);
  }

  lemma LateClaim(self: Address, a: Address, g: Block, b: Block)
    ensures Next(LateNode(self, a, g, b, 4), RunTask(Task(b, 0))).claims == [Claim(Tracker(1, b, [a], {}), Task(b, 0))]
  {
    hide ExecuteBlock;
  }

  /** It can go wrong: the entry times out while its task is on the way, the block comes
      again, and the late task finalises the new entry, which nobody has signed. */
  lemma LateTaskClaimsUnsigned(self: Address, a: Address, g: Block, b: Block)
    requires self != a && b.number <= 10 && g.hash != b.hash
    ensures Init(LateNode(self, a, g, b, 0))
    ensures var claims := After(LateNode(self, a, g, b, 0), LateEvents(a, b), 5).claims;
            claims == [Claim(Tracker(1, b, [a], {}), Task(b, 0))] && !Approved(claims[0].tracker)
  {
    hide Next;
    LateRun(self, a, g, b);
    LateClaim(self, a, g, b);
  }

  /** A member that hears its own approval of a block before the block drops the block, uses
      up what was buffered for it, and keeps a watcher. */
  lemma EarlyOwnVoteDropsBlock(n: Node, b: Block)
    requires Init(n) && n.self in n.committee && Acceptable(n, b)
    ensures var m := After(n, [DeliverApproval(b.hash, n.self), DeliverBlock(b)], 2);
            m.pending == map[] && m.buffer == map[] && m.watchers == multiset{b}
  {
    hide Approved, Track;
    var es := [DeliverApproval(b.hash, n.self), DeliverBlock(b)];
    var m := After(n, es, 1);
    assert m == Next(After(n, es, 0), es[0]) == ReceiveApproval(n, b.hash, n.self);
    assert n.self in EarlyTracker(m, b).signers;
    assert After(n, es, 2) == ReceiveBlock(m, b);
  }

  // ---- Blocks executed again ----

  /** A node that is its whole committee. */
  ghost function SoleNode(self: Address, genesis: Block): Node {
    Node(self, [self], map[], map[], multiset{}, multiset{}, map[0 := genesis], 0, 0, {}, [], [])
  }

  /** It approves on its own what is acceptable, and a finalise task starts at once. */
  lemma SoleDelivery(n: Node, b: Block)
    requires n.committee == [n.self] && n.buffer == map[] && Acceptable(n, b)
    ensures var t := Tracker(n.nextId, b, n.committee, {n.self});
            && Approved(t)
            && Next(n, DeliverBlock(b)) ==
               Spawn(Admit(n, b).(buffer := map[], pending := n.pending[b.hash := t]), Task(b, n.nextId))
  {
    hide Acceptable;
    assert EarlyTracker(n, b) == Tracker(n.nextId, b, n.committee, {});
    assert Signed(EarlyTracker(n, b), n.self).signers == {n.self};
    assert Admit(n, b).buffer == map[];
  }

  lemma RunsTask(n: Node, task: Task)
    requires task in n.tasks && task.block.hash in n.pending
    ensures var b := task.block; var m := Next(n, RunTask(task));
            && m.pending == n.pending - {b.hash} && m.tasks == n.tasks - multiset{task}
            && m.claims == n.claims + [Claim(n.pending[b.hash], task)]
            && m.chain == (if b.number == 0 then n.chain else n.chain[b.number := b])
            && m.height == b.number && m.executed == n.executed + [b.txs]
            && m.self == n.self && m.committee == n.committee && m.buffer == n.buffer && m.nextId == n.nextId
  {
  }

  ghost function TwinEvents(b: Block, c: Block): seq<Event> {
    [DeliverBlock(b), DeliverBlock(c), RunTask(Task(b, 0)), RunTask(Task(c, 1)), DeliverBlock(b), RunTask(Task(b, 2))]
  }

  lemma FirstBlocksAcceptable(n: Node, genesis: Block, b: Block)
    requires n.chain == map[0 := genesis] && n.height == 0 && b.hash !in n.pending
    requires b.number <= 10 && genesis.hash != b.hash
    ensures Acceptable(n, b)
  {
  }

  /** Two blocks of one height are admitted side by side and both signed. */
  lemma TwinsSigned(self: Address, genesis: Block, b: Block, c: Block)
    requires 1 <= b.number <= 10 && b.number == c.number && b.hash != c.hash
    requires genesis.hash != b.hash && genesis.hash != c.hash
    ensures var m := After(SoleNode(self, genesis), TwinEvents(b, c), 2);
            && m.pending == map[b.hash := Tracker(0, b, [self], {self}), c.hash := Tracker(1, c, [self], {self})]
            && m.tasks == multiset{Task(b, 0), Task(c, 1)} && m.chain == map[0 := genesis] && m.height == 0
            && m.claims == [] && m.executed == [] && m.buffer == map[] && m.nextId == 2
            && m.self == self && m.committee == [self]
  {
    hide Next, Acceptable, Approved;
    var n, es := SoleNode(self, genesis), TwinEvents(b, c);
    FirstBlocksAcceptable(n, genesis, b);
    SoleDelivery(n, b);
    var m := After(n, es, 1);
    assert m == Next(After(n, es, 0), es[0]) == Next(n, DeliverBlock(b));
    FirstBlocksAcceptable(m, genesis, c);
    SoleDelivery(m, c);
  }

  /** The second takes the place of the first in the chain. */
  lemma TwinsExecuted(self: Address, genesis: Block, b: Block, c: Block)
    requires 1 <= b.number <= 10 && b.number == c.number && b.hash != c.hash
    requires genesis.hash != b.hash && genesis.hash != c.hash
    ensures var m := After(SoleNode(self, genesis), TwinEvents(b, c), 4);
            && m.pending == map[] && m.chain == map[0 := genesis, b.number := c] && m.height == b.number
            && m.claims == [Claim(Tracker(0, b, [self], {self}), Task(b, 0)),
                            Claim(Tracker(1, c, [self], {self}), Task(c, 1))]
            && m.executed == [b.txs, c.txs] && m.buffer == map[] && m.nextId == 2
            && m.self == self && m.committee == [self]
  {
    hide Next, SoleNode;
    var n, es := SoleNode(self, genesis), TwinEvents(b, c);
    TwinsSigned(self, genesis, b, c);
    var m := After(n, es, 2);
    RunsTask(m, Task(b, 0));
    RunsTask(After(n, es, 3), Task(c, 1));
  }

  /** No vote is kept per height, and a later block of the same number hides an earlier one.
      So one node signs and finalises two blocks of one height, and when the first is
      delivered again it becomes pending again and is executed again. */
  lemma TwinsReopen(self: Address, genesis: Block, b: Block, c: Block)
    requires 1 <= b.number <= 10 && b.number == c.number && b.hash != c.hash
    requires genesis.hash != b.hash && genesis.hash != c.hash
    ensures var n := SoleNode(self, genesis);
            var es := TwinEvents(b, c);
            && Init(n)
            && (forall x :: x in After(n, es, 4).claims ==> Approved(x.tracker))
            && |After(n, es, 4).claims| == 2 && b.hash in After(n, es, 5).pending
            && After(n, es, 6).executed == [b.txs, c.txs, b.txs]
  {
    hide Next;
    var n, es := SoleNode(self, genesis), TwinEvents(b, c);
    TwinsExecuted(self, genesis, b, c);
    var m := After(n, es, 4);
    assert Acceptable(m, b);
    SoleDelivery(m, b);
    RunsTask(After(n, es, 5), Task(b, 2));
  }

  /** With a registration in the first block, that second execution puts its stake into the
      registry once more, though the account pays once. */
  lemma TwinsMint(self: Address, genesis: Block, b: Block, c: Block, a: Address, h: Digest)
    requires 1 <= b.number <= 10 && b.number == c.number && b.hash != c.hash
    requires genesis.hash != b.hash && genesis.hash != c.hash
    requires b.txs == [Tx(a, a, 7, 1, 0, RegisterValidator, h, false)] && c.txs == []
    ensures var w := World(map[a := Account(a, 7, 0)], map[]);
            WorldOf(w, After(SoleNode(self, genesis), TwinEvents(b, c), 6)) ==
            World(map[a := Account(a, 0, 1)], map[a := Validator(a, 14, 0, 0, true)])
  {
    hide After, ExecuteBlock;
    var w := World(map[a := Account(a, 7, 0)], map[]);
    TwinsReopen(self, genesis, b, c);
    RepeatedBlockMints(a, h);
    EmptyBlockBetween(w, b.txs);
    assert [b.txs, c.txs, b.txs] == [b.txs, [], b.txs];
  }

  lemma EmptyBlockBetween(w: World, txs: seq<Tx>)
    ensures ExecuteChain(w, [txs, [], txs]) == ExecuteChain(w, [txs, txs])
  {
    var w' := ExecuteBlock(w, txs).world;
    assert [txs, [], txs][1..] == [[], txs] && [[], txs][1..] == [txs] && [txs, txs][1..] == [txs];
    assert ExecuteChain(w', [[], txs]) == ExecuteChain(w', [txs]);
  }

  ghost function ZeroEvents(b: Block): seq<Event> {
    [DeliverBlock(b), RunTask(Task(b, 0)), DeliverBlock(b), RunTask(Task(b, 1))]
  }

  lemma ZeroExecuted(self: Address, genesis: Block, b: Block)
    requires b.number == 0 && genesis.hash != b.hash
    ensures var m := After(SoleNode(self, genesis), ZeroEvents(b), 2);
            && m.pending == map[] && m.chain == map[0 := genesis] && m.height == 0
            && m.executed == [b.txs] && m.buffer == map[] && m.nextId == 1 && m.self == self && m.committee == [self]
  {
    hide Next, Acceptable, Approved;
    var n, es := SoleNode(self, genesis), ZeroEvents(b);
    FirstBlocksAcceptable(n, genesis, b);
    SoleDelivery(n, b);
    assert After(n, es, 1) == Next(After(n, es, 0), es[0]) == Next(n, DeliverBlock(b));
    RunsTask(After(n, es, 1), Task(b, 0));
  }

  /** Number 0 always reads as the genesis block. So a block of that number with another hash
      is admitted at height 0 and never found afterwards: delivered once more, with nothing in
      between, it is admitted and executed once more. */
  lemma ZeroReopens(self: Address, genesis: Block, b: Block)
    requires b.number == 0 && genesis.hash != b.hash
    ensures var n, es := SoleNode(self, genesis), ZeroEvents(b);
            && Init(n)
            && LastExecuted(n, es, 2) == Some(b) && !Stale(After(n, es, 2), b, b)
            && b.hash in After(n, es, 3).pending
            && After(n, es, 4).executed == [b.txs, b.txs]
  {
    hide Next, Acceptable, Approved;
    var n, es := SoleNode(self, genesis), ZeroEvents(b);
    ZeroExecuted(self, genesis, b);
    var m := After(n, es, 2);
    FirstBlocksAcceptable(m, genesis, b);
    SoleDelivery(m, b);
    RunsTask(After(n, es, 3), Task(b, 1));
    FirstBlocksAcceptable(n, genesis, b);
    SoleDelivery(n, b);
    assert After(n, es, 1) == Next(After(n, es, 0), es[0]);
  }
}
