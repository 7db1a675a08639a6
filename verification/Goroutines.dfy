/**
 The goroutines that the protocol leaves running: which watchers and finalise tasks start,
 which end, and that no entry is left without somebody who will remove it.
 */
module Goroutines {
  import opened Base
  import opened Approvals
  import opened Consensus
  import opened SignerSets
  import opened ConsensusRuns

  // ---- Time-outs ----

  /** A time-out removes the entry of its block, approved or not, and nothing else. */
  lemma TimeoutRemoves(n: Node, b: Block)
    requires b in n.watchers
    ensures var m := Next(n, WatchTimeout(b));
            && b.hash !in m.pending
            && (forall h :: h != b.hash ==> TrackerOf(m, h) == TrackerOf(n, h))
            && m.watchers == n.watchers - multiset{b}
            && m == n.(pending := m.pending, watchers := m.watchers)
  {
  }

  /** Every entry that is not approved yet is watched. */
  ghost predicate OpenWatched(n: Node) {
    forall h :: h in n.pending && !Approved(n.pending[h]) ==> n.pending[h].block in n.watchers
  }

  lemma WatcherStays(n: Node, e: Event, h: Digest)
    requires Inv(n) && h in n.pending && h in Next(n, e).pending
    requires !Approved(n.pending[h]) && n.pending[h].block in n.watchers
    ensures n.pending[h].block in Next(n, e).watchers
  {
    hide Inv, Approved, Started, Ended, Next;
    var b := n.pending[h].block;
    assert b.hash == h by { OwnHash(n, h); }
    WatcherStep(n, e);
    assert (n.watchers + Started(n, e))[b] > 0;
    if e.WatchTick? || e.WatchTimeout? {
      if e.block == b {
        StaysOpen(n, e, h);
      }
      EndsOnlyOwn(n, e);
    } else {
      EndsNothing(n, e);
    }
    assert Ended(n, e)[b] == 0;
  }

  lemma OwnHash(n: Node, h: Digest)
    requires Inv(n) && h in n.pending
    ensures n.pending[h].block.hash == h
  {
    hide Approved, SignersInCommittee;
  }

  lemma StaysOpen(n: Node, e: Event, h: Digest)
    requires h in n.pending && h in Next(n, e).pending && !Approved(n.pending[h])
    requires (e.WatchTick? || e.WatchTimeout?) && e.block.hash == h
    ensures Ended(n, e) == multiset{}
  {
  }

  lemma EndsOnlyOwn(n: Node, e: Event)
    requires e.WatchTick? || e.WatchTimeout?
    ensures Ended(n, e) == multiset{} || Ended(n, e) == multiset{e.block}
  {
  }

  lemma EndsNothing(n: Node, e: Event)
    requires !e.WatchTick? && !e.WatchTimeout?
    ensures Ended(n, e) == multiset{}
  {
  }

  lemma OpenStep(n: Node, e: Event, h: Digest)
    requires Inv(n) && OpenWatched(n) && h in Next(n, e).pending && !Approved(Next(n, e).pending[h])
    ensures Next(n, e).pending[h].block in Next(n, e).watchers
  {
    hide Next, Inv, Approved;
    if h in n.pending {
      PendingStep(n, e, h);
      if Approved(n.pending[h]) {
        StaysApproved(n, e, h);
      } else {
        WatcherStays(n, e, h);
      }
    } else {
      ArrivesByDelivery(n, e, h);
      DeliveryWatches(n, e.block);
    }
  }

  lemma DeliveryWatches(n: Node, b: Block)
    requires b.hash !in n.pending && b.hash in Next(n, DeliverBlock(b)).pending
    ensures Next(n, DeliverBlock(b)).pending[b.hash].block == b && b in Next(n, DeliverBlock(b)).watchers
  {
    hide Approved, Acceptable, EarlyTracker;
    EarlyTrackerFacts(n, b);
  }

  /** At every moment of a run, every entry short of its threshold has a watcher on its block,
      so that it can always time out. */
  lemma {:induction false} OpenIsWatched(n: Node, es: seq<Event>, i: nat)
    requires Init(n) && i <= |es|
    ensures OpenWatched(After(n, es, i))
  {
    hide Next, Approved;
    if i > 0 {
      OpenIsWatched(n, es, i - 1);
      RunInv(n, es, i - 1);
      forall h | h in After(n, es, i).pending && !Approved(After(n, es, i).pending[h])
        ensures After(n, es, i).pending[h].block in After(n, es, i).watchers
      {
        OpenStep(After(n, es, i - 1), es[i - 1], h);
      }
    }
  }

  /** So no entry is stuck: at every moment there is a step that removes it, its time-out or
      its finalisation. */
  lemma {:induction false} NoEntryStuck(n: Node, es: seq<Event>, i: nat, h: Digest) returns (e: Event)
    requires Init(n) && i <= |es| && h in After(n, es, i).pending
    ensures var m := After(n, es, i);
            && h !in Next(m, e).pending
            && (e == WatchTimeout(m.pending[h].block) || (e.RunTask? && e.task in m.tasks && Approved(m.pending[h])))
  {
    hide After, Approved, Inv;
    var m := After(n, es, i);
    RunInv(n, es, i);
    OwnHash(m, h);
    if Approved(m.pending[h]) {
      var task := ApprovedCanBeClaimed(n, es, i, h);
      e := RunTask(task);
    } else {
      OpenIsWatched(n, es, i);
      e := WatchTimeout(m.pending[h].block);
    }
  }

  // ---- Accounts of goroutines ----

  /** The watcher that an event starts: one for every block that is admitted, even if it is
      dropped at once. */
  ghost function Started(n: Node, e: Event): multiset<Block> {
    if e.DeliverBlock? && Acceptable(n, e.block) then multiset{e.block} else multiset{}
  }

  /** The watcher that an event ends: by time-out, or by a tick that finds its entry gone or
      at its threshold. */
  ghost function Ended(n: Node, e: Event): multiset<Block> {
    if (e.WatchTimeout? || e.WatchTick?) && e.block in n.watchers
       && (e.WatchTick? && e.block.hash in n.pending ==> AtThreshold(n.pending[e.block.hash].signers, n, e.block.hash))
    then multiset{e.block} else multiset{}
  }

  /** With these signers the entry for `h` has two thirds of its committee and one more. */
  ghost predicate AtThreshold(signers: set<Address>, n: Node, h: Digest)
    requires h in n.pending
  {
    |signers| >= 2 * |n.pending[h].committee| / 3 + 1
  }

  /** The finalise task that an event spawns: for a block whose early approvals and own vote
      suffice, for each new signature from the one that reaches the threshold on, and for a
      tick that sees it reached. */
  ghost function Fired(n: Node, e: Event): multiset<Task> {
    match e
    case DeliverBlock(b) =>
      if Acceptable(n, b) && !OwnVoteEarly(n, b.hash) && |FirstSigners(n, b.hash)| >= 2 * |n.committee| / 3 + 1
      then multiset{Task(b, n.nextId)} else multiset{}
    case DeliverApproval(h, a) =>
      if h in n.pending && a in n.pending[h].committee && a !in n.pending[h].signers
         && AtThreshold(n.pending[h].signers + {a}, n, h)
      then multiset{Task(n.pending[h].block, n.pending[h].id)} else multiset{}
    case WatchTick(b) =>
      if b in n.watchers && b.hash in n.pending && AtThreshold(n.pending[b.hash].signers, n, b.hash)
      then multiset{Task(b, n.pending[b.hash].id)} else multiset{}
    case _ => multiset{}
  }

  ghost function Ran(n: Node, e: Event): multiset<Task> {
    if e.RunTask? && e.task in n.tasks then multiset{e.task} else multiset{}
  }

  lemma BlockGoroutines(n: Node, b: Block)
    ensures var m := ReceiveBlock(n, b);
            && m.watchers == n.watchers + Started(n, DeliverBlock(b))
            && m.tasks == n.tasks + Fired(n, DeliverBlock(b))
  {
    hide Acceptable, EarlyTracker, FirstSigners, OwnVoteEarly, Approved, Track, Signed;
    if Acceptable(n, b) {
      EntryIff(n, b);
      EarlyTrackerFacts(n, b);
      assert b.hash !in n.pending by { NotPending(n, b); }
      var t := if n.self in n.committee then Signed(EarlyTracker(n, b), n.self) else EarlyTracker(n, b);
      TrackGoroutines(Admit(n, b), b.hash, t);
      TrackHolds(Admit(n, b), b.hash, t);
      if !OwnVoteEarly(n, b.hash) {
        Arrival(n, b);
        MeansApproved(TrackerOf(ReceiveBlock(n, b), b.hash).value);
      }
    }
  }

  lemma MeansApproved(t: Tracker)
    ensures Approved(t) <==> |t.signers| >= 2 * |t.committee| / 3 + 1
  {
  }

  lemma TrackGoroutines(n: Node, h: Digest, t: Tracker)
    ensures Track(n, h, t).watchers == n.watchers
    ensures Track(n, h, t).tasks == n.tasks + if Approved(t) then multiset{Task(t.block, t.id)} else multiset{}
  {
    hide Approved;
  }

  lemma ApprovalGoroutines(n: Node, h: Digest, a: Address)
    ensures var m := ReceiveApproval(n, h, a);
            m.watchers == n.watchers && m.tasks == n.tasks + Fired(n, DeliverApproval(h, a))
  {
    hide Approved, Track;
    if h in n.pending && Accepts(n.pending[h], a) {
      var t := Signed(n.pending[h], a);
      TrackGoroutines(n, h, t);
      MeansApproved(t);
    }
  }

  lemma WatcherStep(n: Node, e: Event)
    ensures Next(n, e).watchers + Ended(n, e) == n.watchers + Started(n, e)
  {
    hide ReceiveBlock, ReceiveApproval, Tick, Timeout, Finalize, AddAndExecute, Started, Ended;
    if !e.DeliverBlock? {
      StartsNothing(n, e);
    }
    if !e.WatchTick? && !e.WatchTimeout? {
      EndsNothing(n, e);
    }
    match e
    case DeliverBlock(b) => BlockGoroutines(n, b);
    case DeliverApproval(h, a) => ApprovalGoroutines(n, h, a);
    case WatchTick(b) => TickGoroutines(n, b);
    case WatchTimeout(b) => TimeoutGoroutines(n, b);
    case RunTask(task) => TaskGoroutines(n, task);
    case Produce(b) => ProduceGoroutines(n, b);
    case Elect(c) =>
  }

  lemma TickGoroutines(n: Node, b: Block)
    ensures Tick(n, b).watchers + Ended(n, WatchTick(b)) == n.watchers
    ensures Tick(n, b).tasks == n.tasks + Fired(n, WatchTick(b))
  {
    hide Approved;
    if b.hash in n.pending {
      MeansApproved(n.pending[b.hash]);
    }
  }

  lemma TimeoutGoroutines(n: Node, b: Block)
    ensures Timeout(n, b).watchers + Ended(n, WatchTimeout(b)) == n.watchers
    ensures Timeout(n, b).tasks == n.tasks
  {
  }

  lemma TaskGoroutines(n: Node, task: Task)
    ensures Finalize(n, task).watchers == n.watchers
    ensures Finalize(n, task).tasks + Ran(n, RunTask(task)) == n.tasks
  {
  }

  lemma ProduceGoroutines(n: Node, b: Block)
    ensures AddAndExecute(n, b).watchers == n.watchers && AddAndExecute(n, b).tasks == n.tasks
  {
  }

  lemma StartsNothing(n: Node, e: Event)
    requires !e.DeliverBlock?
    ensures Started(n, e) == multiset{}
  {
  }

  lemma TaskStep(n: Node, e: Event)
    ensures Next(n, e).tasks + Ran(n, e) == n.tasks + Fired(n, e)
  {
    hide ReceiveBlock, ReceiveApproval, Tick, Timeout, Finalize, AddAndExecute, Fired, Ran;
    if !e.RunTask? {
      RunsNothing(n, e);
    }
    if !e.DeliverBlock? && !e.DeliverApproval? && !e.WatchTick? {
      FiresNothing(n, e);
    }
    match e
    case DeliverBlock(b) => BlockGoroutines(n, b);
    case DeliverApproval(h, a) => ApprovalGoroutines(n, h, a);
    case WatchTick(b) => TickGoroutines(n, b);
    case WatchTimeout(b) => TimeoutGoroutines(n, b);
    case RunTask(task) => TaskGoroutines(n, task);
    case Produce(b) => ProduceGoroutines(n, b);
    case Elect(c) =>
  }

  lemma RunsNothing(n: Node, e: Event)
    requires !e.RunTask?
    ensures Ran(n, e) == multiset{}
  {
  }

  lemma FiresNothing(n: Node, e: Event)
    requires !e.DeliverBlock? && !e.DeliverApproval? && !e.WatchTick?
    ensures Fired(n, e) == multiset{}
  {
  }

  /** What a count of goroutines adds up to over the first `i` events. */
  ghost function Total<T>(n: Node, es: seq<Event>, i: nat, f: (Node, Event) -> multiset<T>): multiset<T>
    requires i <= |es|
  {
    if i == 0 then multiset{} else Total(n, es, i - 1, f) + f(After(n, es, i - 1), es[i - 1])
  }

  /** Over every run, the watchers that started are those that ended and those still there;
      and the finalise tasks spawned are those that ran and those still on the way. */
  lemma {:induction false} GoroutinesBalance(n: Node, es: seq<Event>, i: nat)
    requires Init(n) && i <= |es|
    ensures Total(n, es, i, Started) == Total(n, es, i, Ended) + After(n, es, i).watchers
    ensures Total(n, es, i, Fired) == Total(n, es, i, Ran) + After(n, es, i).tasks
  {
    hide Next, Started, Ended, Fired, Ran;
    if i > 0 {
      GoroutinesBalance(n, es, i - 1);
      var m, m' := After(n, es, i - 1), After(n, es, i);
      WatcherStep(m, es[i - 1]);
      TaskStep(m, es[i - 1]);
      Carry(Total(n, es, i - 1, Started), Total(n, es, i - 1, Ended), m.watchers,
            Started(m, es[i - 1]), Ended(m, es[i - 1]), m'.watchers);
      Carry(Total(n, es, i - 1, Fired), Total(n, es, i - 1, Ran), m.tasks,
            Fired(m, es[i - 1]), Ran(m, es[i - 1]), m'.tasks);
    }
  }

  lemma Carry<T>(ins: multiset<T>, outs: multiset<T>, held: multiset<T>,
                 inn: multiset<T>, out: multiset<T>, held': multiset<T>)
    requires ins == outs + held && held' + out == held + inn
    ensures ins + inn == (outs + out) + held'
  {
    assert ins + inn == outs + (held + inn);
  }
}
