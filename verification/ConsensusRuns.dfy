/** Safety of the approval protocol over every interleaving of its steps. */
module ConsensusRuns {
  import opened Base
  import opened Approvals
  import opened Consensus
  import opened SignerSets

  /** After the first `j` events the tracker pending for `h` had reached its threshold. */
  ghost predicate ApprovedAt(n: Node, es: seq<Event>, j: nat, h: Digest) {
    j <= |es| && var m := After(n, es, j); h in m.pending && Approved(m.pending[h]) && SignersInCommittee(m.pending[h])
  }

  lemma TrackTask(n: Node, h: Digest, t: Tracker, task: Task)
    requires task in Track(n, h, t).tasks && task !in n.tasks
    ensures task == Task(t.block, t.id) && Approved(t) && h in Track(n, h, t).pending && Track(n, h, t).pending[h] == t
  {
    hide Approved;
  }

  lemma NewTaskFromBlock(n: Node, b: Block, task: Task)
    requires task in ReceiveBlock(n, b).tasks && task !in n.tasks
    ensures var m := ReceiveBlock(n, b); task.block.hash in m.pending && Approved(m.pending[task.block.hash])
  {
    hide Approved, Track, Acceptable, EarlyTracker;
    var t := EarlyTracker(n, b);
    EarlyTrackerFacts(n, b);
    if n.self in n.committee {
      TrackTask(Admit(n, b), b.hash, Signed(t, n.self), task);
    } else {
      TrackTask(Admit(n, b), b.hash, t, task);
    }
  }

  lemma NewTaskFromApproval(n: Node, h: Digest, a: Address, task: Task)
    requires Inv(n) && task in ReceiveApproval(n, h, a).tasks && task !in n.tasks
    ensures var m := ReceiveApproval(n, h, a); task.block.hash in m.pending && Approved(m.pending[task.block.hash])
  {
    hide Approved, Track;
    TrackTask(n, h, Signed(n.pending[h], a), task);
  }

  lemma NewTaskFromTick(n: Node, b: Block, task: Task)
    requires task in Tick(n, b).tasks && task !in n.tasks
    ensures var m := Tick(n, b); task.block.hash in m.pending && Approved(m.pending[task.block.hash])
  {
    hide Approved;
  }

  /** A task that a step spawns finds its hash approved right after that step. */
  lemma NewTask(n: Node, e: Event, task: Task)
    requires Inv(n) && task in Next(n, e).tasks && task !in n.tasks
    ensures var m := Next(n, e); task.block.hash in m.pending && Approved(m.pending[task.block.hash])
  {
    hide Approved, ReceiveBlock, ReceiveApproval, Tick;
    match e
    case DeliverBlock(b) => NewTaskFromBlock(n, b, task);
    case DeliverApproval(h, a) => NewTaskFromApproval(n, h, a, task);
    case WatchTick(b) => NewTaskFromTick(n, b, task);
    case _ =>
  }

  /** Every task around was spawned for a hash that was approved at some earlier moment. */
  lemma {:induction false} TaskWasApproved(n: Node, es: seq<Event>, i: nat, task: Task) returns (j: nat)
    requires Init(n) && i <= |es| && task in After(n, es, i).tasks
    ensures j <= i && ApprovedAt(n, es, j, task.block.hash)
  {
    hide Next, Approved, SignersInCommittee;
    j := i;
    if i > 0 {
      var before := After(n, es, i - 1);
      RunInv(n, es, i - 1);
      RunInv(n, es, i);
      if task in before.tasks {
        j := TaskWasApproved(n, es, i - 1, task);
      } else {
        NewTask(before, es[i - 1], task);
      }
    }
  }

  /** Claims only ever grow, by one, and only in a finalise task that finds its hash pending. */
  lemma ClaimStep(n: Node, e: Event)
    ensures var m := Next(n, e);
            m.claims != n.claims ==>
              && e.RunTask? && e.task in n.tasks && e.task.block.hash in n.pending
              && m.claims == n.claims + [Claim(n.pending[e.task.block.hash], e.task)]
  {
    hide Approved, Acceptable;
  }

  /** Whenever an event finalises a hash, that hash had at some earlier moment a tracker
      with at least its threshold of committee signers. */
  lemma {:induction false} FinalizedWasApproved(n: Node, es: seq<Event>, i: nat) returns (j: nat)
    requires Init(n) && i < |es|
    requires After(n, es, i + 1).claims != After(n, es, i).claims
    ensures es[i].RunTask? && j <= i && ApprovedAt(n, es, j, es[i].task.block.hash)
    ensures var before := After(n, es, i).claims; var after := After(n, es, i + 1).claims;
            && |after| == |before| + 1 && after[..|before|] == before
            && after[|before|].tracker.block.hash == es[i].task.block.hash
  {
    hide Next;
    RunInv(n, es, i);
    ClaimStep(After(n, es, i), es[i]);
    j := TaskWasApproved(n, es, i, es[i].task);
  }

  /** However many tasks race for it, each pending entry is claimed at most once, and a
      claimed entry never comes back. */
  lemma {:induction false} ClaimedAtMostOnce(n: Node, es: seq<Event>)
    requires Init(n)
    ensures var m := After(n, es, |es|);
            && (forall i, j :: 0 <= i < j < |m.claims| ==> m.claims[i].tracker.id != m.claims[j].tracker.id)
            && (forall i, h :: 0 <= i < |m.claims| && h in m.pending ==> m.claims[i].tracker.id != m.pending[h].id)
  {
    RunInv(n, es, |es|);
  }

  /** A hash becomes pending only by delivery of its block, and only if the chain does not
      hold it and its height is near; and what came early for it is then used up. */
  lemma BecomesPending(n: Node, e: Event, h: Digest)
    requires Inv(n) && h !in n.pending && h in Next(n, e).pending
    ensures e.DeliverBlock? && e.block.hash == h
    ensures !HasBlock(n.chain, n.height, h) && n.height <= e.block.number <= Plus(n.height, CATCH_UP)
    ensures h !in Next(n, e).buffer
  {
    hide Next, HasBlock, Wrap, ReceiveBlock;
    ArrivesByDelivery(n, e, h);
    assert Next(n, e) == ReceiveBlock(n, e.block) by { DeliveryIsReceipt(n, e.block); }
    OpensEntry(n, e.block);
  }

  lemma OpensEntry(n: Node, b: Block)
    requires b.hash !in n.pending && b.hash in ReceiveBlock(n, b).pending
    ensures Acceptable(n, b) && b.hash !in ReceiveBlock(n, b).buffer
  {
    hide Approved, EarlyTracker, Acceptable, Accepts, Signed;
  }

  /** An entry that is claimed without approval is claimed by a task left over from an
      earlier entry for the same hash. */
  lemma {:induction false} UnapprovedClaimIsLate(n: Node, es: seq<Event>, i: nat)
    requires Init(n) && i < |After(n, es, |es|).claims|
    ensures var c := After(n, es, |es|).claims[i];
            && c.claimer.block.hash == c.tracker.block.hash && c.claimer.id <= c.tracker.id
            && (!Approved(c.tracker) ==> c.claimer.id < c.tracker.id)
  {
    RunInv(n, es, |es|);
    assert ClaimSound(After(n, es, |es|).claims[i], After(n, es, |es|).spawned, After(n, es, |es|).nextId);
  }

  // ---- When every claim is of an approved entry ----

  ghost predicate InFlight(n: Node, h: Digest) {
    exists task :: task in n.tasks && task.block.hash == h
  }

  /** Delivering `b` now opens an entry that is not approved yet, while a finalise task for
      its hash is still on the way. */
  ghost predicate Risky(n: Node, b: Block) {
    && Acceptable(n, b) && !OwnVoteEarly(n, b.hash)
    && InFlight(n, b.hash)
    && |FirstSigners(n, b.hash)| < Threshold(|n.committee|)
  }

  ghost predicate NeverRisky(n: Node, es: seq<Event>, i: nat)
    requires i <= |es|
  {
    forall j :: 0 <= j < i && es[j].DeliverBlock? ==> !Risky(After(n, es, j), es[j].block)
  }

  ghost predicate AllApproved(claims: seq<Claim>) {
    forall c :: c in claims ==> Approved(c.tracker)
  }

  /** Whatever a task on the way would claim now is approved. */
  ghost predicate TasksCovered(n: Node) {
    forall task :: task in n.tasks && task.block.hash in n.pending ==> Approved(n.pending[task.block.hash])
  }

  lemma CoveredTask(n: Node, e: Event, task: Task)
    requires Inv(n) && TasksCovered(n) && (e.DeliverBlock? ==> !Risky(n, e.block))
    requires task in Next(n, e).tasks && task.block.hash in Next(n, e).pending
    ensures Approved(Next(n, e).pending[task.block.hash])
  {
    hide Next, Inv, Approved, Acceptable, FirstSigners, OwnVoteEarly;
    var h := task.block.hash;
    if task !in n.tasks {
      NewTask(n, e, task);
    } else if h in n.pending {
      StaysApproved(n, e, h);
    } else {
      BecomesPending(n, e, h);
      OpensApproved(n, e.block);
    }
  }

  lemma StaysApproved(n: Node, e: Event, h: Digest)
    requires h in n.pending && h in Next(n, e).pending && Approved(n.pending[h])
    ensures Approved(Next(n, e).pending[h])
  {
    hide Next;
    PendingStep(n, e, h);
    if e.DeliverApproval? && Accepts(n.pending[h], e.signer) {
      MoreSigners(n.pending[h], e.signer);
    }
  }

  /** A block that is not risky opens an approved entry if a task for it is on the way. */
  lemma OpensApproved(n: Node, b: Block)
    requires b.hash !in n.pending && b.hash in Next(n, DeliverBlock(b)).pending
    requires !Risky(n, b) && InFlight(n, b.hash)
    ensures Approved(Next(n, DeliverBlock(b)).pending[b.hash])
  {
    hide FirstSigners, OwnVoteEarly, InFlight, EarlyTracker;
    EntryIff(n, b);
    Arrival(n, b);
  }

  lemma CoveredStep(n: Node, e: Event)
    requires Inv(n) && TasksCovered(n) && (e.DeliverBlock? ==> !Risky(n, e.block))
    ensures TasksCovered(Next(n, e))
    ensures AllApproved(n.claims) ==> AllApproved(Next(n, e).claims)
  {
    hide Next, Inv, Approved, Risky;
    forall task | task in Next(n, e).tasks && task.block.hash in Next(n, e).pending
      ensures Approved(Next(n, e).pending[task.block.hash])
    {
      CoveredTask(n, e, task);
    }
    ClaimStep(n, e);
  }

  lemma {:induction false} CoveredRun(n: Node, es: seq<Event>, i: nat)
    requires Init(n) && i <= |es| && NeverRisky(n, es, i)
    ensures TasksCovered(After(n, es, i)) && AllApproved(After(n, es, i).claims)
  {
    hide Next, Risky, Approved;
    if i > 0 {
      CoveredRun(n, es, i - 1);
      RunInv(n, es, i - 1);
      CoveredStep(After(n, es, i - 1), es[i - 1]);
    }
  }

  /** After a risky delivery, the task on the way claims the new entry without approval. */
  lemma RiskyDelivery(n: Node, b: Block) returns (task: Task)
    requires Inv(n) && Risky(n, b)
    ensures var m := Next(n, DeliverBlock(b));
            && b.hash in m.pending && !Approved(m.pending[b.hash])
            && Next(m, RunTask(task)).claims == n.claims + [Claim(m.pending[b.hash], task)]
  {
    hide FirstSigners, OwnVoteEarly, ReceiveBlock, Acceptable;
    task :| task in n.tasks && task.block.hash == b.hash;
    DeliveryKeeps(n, b);
    EntryIff(n, b);
    assert b.hash !in n.pending by { NotPending(n, b); }
    Arrival(n, b);
  }

  lemma DeliveryKeeps(n: Node, b: Block)
    ensures ReceiveBlock(n, b).claims == n.claims && n.tasks <= ReceiveBlock(n, b).tasks
  {
    hide Approved, Acceptable, EarlyTracker;
  }

  lemma NotPending(n: Node, b: Block)
    requires Acceptable(n, b)
    ensures b.hash !in n.pending
  {
  }

  /** Whichever task runs next, at every moment of a run, claims approved entries only: this
      holds exactly when no block of the run was admitted, short of its threshold, while a
      finalise task for its hash was on the way. */
  lemma {:induction false} ClaimApprovedIff(n: Node, es: seq<Event>)
    requires Init(n)
    ensures (forall j, task :: 0 <= j <= |es| ==> AllApproved(Next(After(n, es, j), RunTask(task)).claims))
            <==> NeverRisky(n, es, |es|)
  {
    hide After, Next, Risky, Approved, Init;
    if NeverRisky(n, es, |es|) {
      forall j, task | 0 <= j <= |es| ensures AllApproved(Next(After(n, es, j), RunTask(task)).claims) {
        CoveredRun(n, es, j);
        RunInv(n, es, j);
        CoveredStep(After(n, es, j), RunTask(task));
      }
    } else {
      var j :| 0 <= j < |es| && es[j].DeliverBlock? && Risky(After(n, es, j), es[j].block);
      var task := RiskyMoment(n, es, j);
      assert !AllApproved(Next(After(n, es, j + 1), RunTask(task)).claims);
    }
  }

  lemma {:induction false} RiskyMoment(n: Node, es: seq<Event>, j: nat) returns (task: Task)
    requires Init(n) && j < |es| && es[j].DeliverBlock? && Risky(After(n, es, j), es[j].block)
    ensures !AllApproved(Next(After(n, es, j + 1), RunTask(task)).claims)
  {
    hide Next, Risky, Approved;
    RunInv(n, es, j);
    task := RiskyDelivery(After(n, es, j), es[j].block);
    var claims := Next(After(n, es, j + 1), RunTask(task)).claims;
    assert claims[|claims| - 1] in claims;
  }

  // ---- Nothing approved is forgotten ----

  /** For every approved entry a finalise task is on the way. */
  ghost predicate ApprovedServed(n: Node) {
    forall h :: h in n.pending && Approved(n.pending[h]) ==> InFlight(n, h)
  }

  lemma TrackServes(n: Node, h: Digest, t: Tracker)
    requires Approved(t) && t.block.hash == h
    ensures InFlight(Track(n, h, t), h)
  {
    hide Approved;
    assert Task(t.block, t.id) in Track(n, h, t).tasks;
  }

  lemma ApprovalServes(n: Node, h: Digest, a: Address)
    requires Inv(n) && h in n.pending && Accepts(n.pending[h], a)
    requires Approved(ReceiveApproval(n, h, a).pending[h])
    ensures InFlight(ReceiveApproval(n, h, a), h)
  {
    hide Approved, Accepts, Track, InFlight;
    var t := Signed(n.pending[h], a);
    TrackHolds(n, h, t);
    TrackServes(n, h, t);
  }

  lemma TrackHolds(n: Node, h: Digest, t: Tracker)
    ensures h in Track(n, h, t).pending && Track(n, h, t).pending[h] == t
  {
    hide Approved;
  }

  lemma BlockServes(n: Node, b: Block)
    requires b.hash !in n.pending && b.hash in ReceiveBlock(n, b).pending
    requires Approved(ReceiveBlock(n, b).pending[b.hash])
    ensures InFlight(ReceiveBlock(n, b), b.hash)
  {
    hide Approved, Acceptable, EarlyTracker, Track, InFlight;
    EarlyTrackerFacts(n, b);
    var t := if n.self in n.committee then Signed(EarlyTracker(n, b), n.self) else EarlyTracker(n, b);
    TrackHolds(Admit(n, b), b.hash, t);
    if t.block == b && Approved(t) {
      TrackServes(Admit(n, b), b.hash, t);
    }
  }

  /** A task only disappears when it runs, and then its hash is no longer pending. */
  lemma KeepsTask(n: Node, e: Event, task: Task)
    requires task in n.tasks && task.block.hash in n.pending && task.block.hash in Next(n, e).pending
    ensures task in Next(n, e).tasks
  {
    hide ReceiveBlock, ReceiveApproval, Tick, Finalize;
    match e
    case DeliverBlock(b) => DeliveryKeeps(n, b);
    case DeliverApproval(h, a) => ApprovalKeepsTasks(n, h, a);
    case WatchTick(b) => TickKeepsTasks(n, b);
    case RunTask(other) => FinalizeKeepsOthers(n, other, task);
    case _ =>
  }

  lemma ApprovalKeepsTasks(n: Node, h: Digest, a: Address)
    ensures n.tasks <= ReceiveApproval(n, h, a).tasks
  {
    hide Approved, Accepts, Signed;
  }

  lemma TickKeepsTasks(n: Node, b: Block)
    ensures n.tasks <= Tick(n, b).tasks
  {
    hide Approved;
  }

  lemma FinalizeKeepsOthers(n: Node, other: Task, task: Task)
    requires task in n.tasks && task.block.hash in n.pending && task.block.hash in Finalize(n, other).pending
    ensures task in Finalize(n, other).tasks
  {
    assert other != task;
  }

  lemma ServedStep(n: Node, e: Event, h: Digest)
    requires Inv(n) && ApprovedServed(n) && h in Next(n, e).pending && Approved(Next(n, e).pending[h])
    ensures InFlight(Next(n, e), h)
  {
    hide Inv, Approved, ReceiveBlock, ReceiveApproval, Accepts, Tick, Timeout, Finalize;
    if h !in n.pending {
      BecomesPending(n, e, h);
      BlockServes(n, e.block);
    } else if e.DeliverApproval? && e.hash == h && Accepts(n.pending[h], e.signer) {
      ApprovalServes(n, h, e.signer);
    } else {
      PendingStep(n, e, h);
      assert Next(n, e).pending[h] == n.pending[h];
      var task :| task in n.tasks && task.block.hash == h;
      KeepsTask(n, e, task);
    }
  }

  /** At every moment of a run, every approved entry has a finalise task on the way. */
  lemma {:induction false} ApprovedIsServed(n: Node, es: seq<Event>, i: nat)
    requires Init(n) && i <= |es|
    ensures ApprovedServed(After(n, es, i))
  {
    hide Next, Approved, InFlight;
    if i > 0 {
      ApprovedIsServed(n, es, i - 1);
      RunInv(n, es, i - 1);
      forall h | h in After(n, es, i).pending && Approved(After(n, es, i).pending[h])
        ensures InFlight(After(n, es, i), h)
      {
        ServedStep(After(n, es, i - 1), es[i - 1], h);
      }
    }
  }

  /** So an approved entry can be claimed at once, by running that task. */
  lemma {:induction false} ApprovedCanBeClaimed(n: Node, es: seq<Event>, i: nat, h: Digest) returns (task: Task)
    requires Init(n) && i <= |es| && h in After(n, es, i).pending && Approved(After(n, es, i).pending[h])
    ensures var m := After(n, es, i);
            && task in m.tasks && task.block.hash == h
            && Next(m, RunTask(task)).claims == m.claims + [Claim(m.pending[h], task)]
  {
    hide After, Approved;
    ApprovedIsServed(n, es, i);
    task :| task in After(n, es, i).tasks && task.block.hash == h;
  }
}
