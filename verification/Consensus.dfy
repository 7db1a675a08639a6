/**
 The approval and finalisation protocol of node.go as a transition system. Delivering a
 message, a tick or timeout of a watcher, and running a spawned finalise task are atomic
 steps; tasks run at any later time, several may race for one entry.
 */
module Consensus {
  import opened Base
  import opened Ledger
  import opened Approvals

  /** A spawned call of `finalizeApprovedBlock`, and the tracker that it was spawned for. */
  datatype Task = Task(block: Block, id: nat)

  /** History: a finalise task removed this tracker from the pending ones. */
  datatype Claim = Claim(tracker: Tracker, claimer: Task)

  datatype Node = Node(
    self: Address,
    committee: seq<Address>,
    pending: map<Digest, Tracker>,
    buffer: map<Digest, seq<Address>>,
    watchers: multiset<Block>,
    tasks: multiset<Task>,
    chain: map<Word, Block>,
    height: Word,
    nextId: nat,
    // history
    spawned: set<nat>,
    claims: seq<Claim>,
    executed: seq<seq<Tx>>)

  datatype Event =
    | DeliverBlock(block: Block)
    | DeliverApproval(hash: Digest, signer: Address)
    | WatchTick(block: Block)
    | WatchTimeout(block: Block)
    | RunTask(task: Task)
    | Produce(block: Block)
    | Elect(committee: seq<Address>)

  const CATCH_UP: Word := 10

  /** Some block up to the current height carries this hash. */
  predicate HasBlock(chain: map<Word, Block>, height: Word, h: Digest) {
    exists i :: i in chain && i <= height && chain[i].hash == h
  }

  /** The guards of `processReceivedBlock`. */
  predicate Acceptable(n: Node, b: Block) {
    b.hash !in n.pending && !HasBlock(n.chain, n.height, b.hash) && n.height <= b.number <= Plus(n.height, CATCH_UP)
  }

  function Buffered(n: Node, h: Digest): seq<Address> {
    if h in n.buffer then n.buffer[h] else []
  }

  /** Store a tracker, and spawn a finalise task if it is approved by now. */
  function Track(n: Node, h: Digest, t: Tracker): Node {
    var n' := n.(pending := n.pending[h := t]);
    if Approved(t) then Spawn(n', Task(t.block, t.id)) else n'
  }

  function Spawn(n: Node, task: Task): Node {
    n.(tasks := n.tasks + multiset{task}, spawned := n.spawned + {task.id})
  }

  /** The tracker that an acceptable block starts with: the early approvals are in, each
      member once, whatever else was buffered. */
  function EarlyTracker(n: Node, b: Block): Tracker {
    Tracker(n.nextId, b, n.committee, set a | a in Buffered(n, b.hash) && a in n.committee)
  }

  /** The node once an acceptable block has been looked at, before it is stored. */
  function Admit(n: Node, b: Block): Node {
    n.(buffer := n.buffer - {b.hash}, watchers := n.watchers + multiset{b}, nextId := n.nextId + 1)
  }

  /** `processReceivedBlock`. A member votes for itself; if its own vote is refused, because
      one bearing its address came early, the block is dropped, but its watcher stays. */
  function ReceiveBlock(n: Node, b: Block): Node {
    if !Acceptable(n, b) then n
    else
      var t := EarlyTracker(n, b);
      var n' := Admit(n, b);
      if n.self !in n.committee then Track(n', b.hash, t)
      else if Accepts(t, n.self) then Track(n', b.hash, Signed(t, n.self))
      else n'
  }

  /** `processApproval`. */
  function ReceiveApproval(n: Node, h: Digest, a: Address): Node {
    if h !in n.pending then n.(buffer := n.buffer[h := Buffered(n, h) + [a]])
    else if !Accepts(n.pending[h], a) then n
    else Track(n, h, Signed(n.pending[h], a))
  }

  /** One tick of `watchBlockApproval`. */
  function Tick(n: Node, b: Block): Node {
    if b !in n.watchers then n
    else if b.hash !in n.pending then n.(watchers := n.watchers - multiset{b})
    else if !Approved(n.pending[b.hash]) then n
    else Spawn(n.(watchers := n.watchers - multiset{b}), Task(b, n.pending[b.hash].id))
  }

  function Timeout(n: Node, b: Block): Node {
    if b !in n.watchers then n
    else n.(watchers := n.watchers - multiset{b}, pending := n.pending - {b.hash})
  }

  /** Adding a block and executing its transactions; height 0 always reads as the genesis
      block. The executed stretches are kept in order: what they do to the ledger is the
      business of block execution. */
  function AddAndExecute(n: Node, b: Block): Node {
    n.(chain := if b.number == 0 then n.chain else n.chain[b.number := b],
       height := b.number,
       executed := n.executed + [b.txs])
  }

  /** `finalizeApprovedBlock`: whoever removes the entry first adds the block. */
  function Finalize(n: Node, task: Task): Node {
    if task !in n.tasks then n
    else
      var h := task.block.hash;
      var n' := n.(tasks := n.tasks - multiset{task});
      if h !in n.pending then n'
      else AddAndExecute(n'.(pending := n.pending - {h}, claims := n.claims + [Claim(n.pending[h], task)]), task.block)
  }

  function Next(n: Node, e: Event): Node {
    match e
    case DeliverBlock(b) => ReceiveBlock(n, b)
    case DeliverApproval(h, a) => ReceiveApproval(n, h, a)
    case WatchTick(b) => Tick(n, b)
    case WatchTimeout(b) => Timeout(n, b)
    case RunTask(task) => Finalize(n, task)
    case Produce(b) => AddAndExecute(n, b)
    case Elect(c) => n.(committee := c)
  }

  /** Nothing pending, nothing buffered, nothing spawned. */
  ghost predicate Init(n: Node) {
    && n.pending == map[] && n.buffer == map[] && n.watchers == multiset{} && n.tasks == multiset{}
    && n.nextId == 0 && n.spawned == {} && n.claims == [] && n.executed == []
  }

  /** The node after the first `i` events of a run. */
  function After(n: Node, es: seq<Event>, i: nat): Node
    requires i <= |es|
  {
    if i == 0 then n else Next(After(n, es, i - 1), es[i - 1])
  }

  // ---- What every step keeps ----

  type Pending = map<Digest, Tracker>

  ghost predicate TrackersSound(pending: Pending, nextId: nat) {
    && (forall h :: h in pending ==>
          pending[h].block.hash == h && pending[h].id < nextId && SignersInCommittee(pending[h]))
    && (forall g, h :: g in pending && h in pending && g != h ==> pending[g].id != pending[h].id)
  }

  /** A finalise task has been spawned for exactly the approved trackers, and never for one
      that is yet to come. */
  ghost predicate SpawnedSound(pending: Pending, tasks: multiset<Task>, spawned: set<nat>, nextId: nat) {
    && (forall id :: id in spawned ==> id < nextId)
    && (forall task :: task in tasks ==>
          task.id in spawned && (task.block.hash in pending ==> task.id <= pending[task.block.hash].id))
    && (forall h :: h in pending ==> (Approved(pending[h]) <==> pending[h].id in spawned))
  }

  ghost predicate ClaimSound(c: Claim, spawned: set<nat>, nextId: nat) {
    && c.tracker.id < nextId
    && SignersInCommittee(c.tracker)
    && c.tracker.block.hash == c.claimer.block.hash
    && c.claimer.id in spawned && c.claimer.id <= c.tracker.id
    && (Approved(c.tracker) <==> c.tracker.id in spawned)
  }

  /** Claimed trackers are gone for good and pairwise different. */
  ghost predicate ClaimsSound(claims: seq<Claim>, pending: Pending, spawned: set<nat>, nextId: nat) {
    && (forall i :: 0 <= i < |claims| ==> ClaimSound(claims[i], spawned, nextId))
    && (forall i, j :: 0 <= i < j < |claims| ==> claims[i].tracker.id != claims[j].tracker.id)
    && (forall i, h :: 0 <= i < |claims| && h in pending ==> claims[i].tracker.id != pending[h].id)
  }

  ghost predicate Inv(n: Node) {
    && n.pending.Keys !! n.buffer.Keys
    && TrackersSound(n.pending, n.nextId)
    && SpawnedSound(n.pending, n.tasks, n.spawned, n.nextId)
    && ClaimsSound(n.claims, n.pending, n.spawned, n.nextId)
  }

  /** Storing a tracker under a hash: new, or a later version of the one stored there. */
  ghost predicate MayStore(n: Node, h: Digest, t: Tracker) {
    && t.block.hash == h && t.id < n.nextId && SignersInCommittee(t)
    && (forall g :: g in n.pending && g != h ==> n.pending[g].id != t.id)
    && (forall i :: 0 <= i < |n.claims| ==> n.claims[i].tracker.id != t.id)
    && (t.id in n.spawned ==> Approved(t))
    && h !in n.buffer
    && (forall task :: task in n.tasks && task.block.hash == h ==> task.id <= t.id)
  }

  lemma TrackInv(n: Node, h: Digest, t: Tracker)
    requires Inv(n) && MayStore(n, h, t)
    ensures Inv(Track(n, h, t))
  {
    hide Inv, MayStore, Approved;
    if Approved(t) {
      StoreApproved(n, h, t);
    } else {
      StoreOpen(n, h, t);
    }
  }

  lemma StoreApproved(n: Node, h: Digest, t: Tracker)
    requires Inv(n) && MayStore(n, h, t) && Approved(t)
    ensures Inv(Spawn(n.(pending := n.pending[h := t]), Task(t.block, t.id)))
  {
    hide Approved, SignersInCommittee;
    ClaimsIgnore(n.claims, n.pending, n.spawned, n.nextId, n.pending[h := t], t.id);
    assert SpawnedSound(n.pending[h := t], n.tasks + multiset{Task(t.block, t.id)}, n.spawned + {t.id}, n.nextId);
  }

  lemma StoreOpen(n: Node, h: Digest, t: Tracker)
    requires Inv(n) && MayStore(n, h, t) && !Approved(t)
    ensures Inv(n.(pending := n.pending[h := t]))
  {
    hide Approved, SignersInCommittee;
    assert SpawnedSound(n.pending[h := t], n.tasks, n.spawned, n.nextId);
  }

  /** Spawning for a tracker that nobody claimed leaves the claims sound. */
  lemma ClaimsIgnore(claims: seq<Claim>, pending: Pending, spawned: set<nat>, nextId: nat, pending': Pending, id: nat)
    requires ClaimsSound(claims, pending, spawned, nextId)
    requires forall i :: 0 <= i < |claims| ==> claims[i].tracker.id != id
    requires forall h :: h in pending' ==> (h in pending && pending'[h].id == pending[h].id) || pending'[h].id == id
    ensures ClaimsSound(claims, pending', spawned + {id}, nextId)
  {
    hide Approved, SignersInCommittee;
    forall i | 0 <= i < |claims| ensures ClaimSound(claims[i], spawned + {id}, nextId) {
      assert ClaimSound(claims[i], spawned, nextId);
    }
  }

  lemma EarlyTrackerFacts(n: Node, b: Block)
    ensures var t := EarlyTracker(n, b);
            && t == Tracker(n.nextId, b, n.committee, t.signers)
            && t.signers == (set a | a in Buffered(n, b.hash) && a in n.committee)
            && SignersInCommittee(t)
            && (n.self in n.committee ==> SignersInCommittee(Signed(t, n.self)))
  {
  }

  lemma FreshTracker(n: Node, b: Block, t: Tracker)
    requires Inv(n) && t.id == n.nextId && t.block == b && SignersInCommittee(t)
    ensures Inv(Admit(n, b)) && MayStore(Admit(n, b), b.hash, t)
  {
    hide Approved, SignersInCommittee;
  }

  lemma ReceiveBlockInv(n: Node, b: Block)
    requires Inv(n)
    ensures Inv(ReceiveBlock(n, b))
  {
    hide Inv, Approved, SignersInCommittee, EarlyTracker, Acceptable, MayStore, Track;
    var t := EarlyTracker(n, b);
    EarlyTrackerFacts(n, b);
    FreshTracker(n, b, t);
    TrackInv(Admit(n, b), b.hash, t);
    if n.self in n.committee {
      FreshTracker(n, b, Signed(t, n.self));
      TrackInv(Admit(n, b), b.hash, Signed(t, n.self));
    }
  }

  lemma MoreSigners(t: Tracker, a: Address)
    requires Accepts(t, a)
    ensures Approved(t) ==> Approved(Signed(t, a))
    ensures SignersInCommittee(t) ==> SignersInCommittee(Signed(t, a))
  {
  }

  lemma ReceiveApprovalInv(n: Node, h: Digest, a: Address)
    requires Inv(n)
    ensures Inv(ReceiveApproval(n, h, a))
  {
    if h in n.pending && Accepts(n.pending[h], a) {
      MoreSigners(n.pending[h], a);
      TrackInv(n, h, Signed(n.pending[h], a));
    }
  }

  lemma TickInv(n: Node, b: Block)
    requires Inv(n)
    ensures Inv(Tick(n, b))
  {
    hide Approved, SignersInCommittee;
    if b in n.watchers && b.hash in n.pending && Approved(n.pending[b.hash]) {
      ClaimsIgnore(n.claims, n.pending, n.spawned, n.nextId, n.pending, n.pending[b.hash].id);
    }
  }

  lemma FinalizeInv(n: Node, task: Task)
    requires Inv(n)
    ensures Inv(Finalize(n, task))
  {
    hide Approved, SignersInCommittee;
    var h := task.block.hash;
    if task in n.tasks && h in n.pending {
      assert ClaimSound(Claim(n.pending[h], task), n.spawned, n.nextId);
    }
  }

  lemma TimeoutInv(n: Node, b: Block)
    requires Inv(n)
    ensures Inv(Timeout(n, b))
  {
  }

  lemma StepInv(n: Node, e: Event)
    requires Inv(n)
    ensures Inv(Next(n, e))
  {
    match e
    case DeliverBlock(b) => ReceiveBlockInv(n, b);
    case DeliverApproval(h, a) => ReceiveApprovalInv(n, h, a);
    case WatchTick(b) => TickInv(n, b);
    case WatchTimeout(b) => TimeoutInv(n, b);
    case RunTask(task) => FinalizeInv(n, task);
    case Produce(b) =>
    case Elect(c) =>
  }

  lemma {:induction false} RunInv(n: Node, es: seq<Event>, i: nat)
    requires Init(n) && i <= |es|
    ensures Inv(After(n, es, i))
  {
    hide Next;
    if i > 0 {
      RunInv(n, es, i - 1);
      StepInv(After(n, es, i - 1), es[i - 1]);
    }
  }
}
