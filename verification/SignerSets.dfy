/**
 Which signatures a pending block ends up with: the same set however the block and its
 approvals are interleaved with each other and with everything else the node does.
 */
module SignerSets {
  import opened Base
  import opened Approvals
  import opened Consensus

  /** Everybody whose approval of `h` is among the events. */
  ghost function Approvers(es: seq<Event>, h: Digest): set<Address> {
    set e | e in es && e.DeliverApproval? && e.hash == h :: e.signer
  }

  ghost function Elements(s: seq<Address>): set<Address> {
    set a | a in s
  }

  /** The tracker pending for `h`, if any. */
  ghost function TrackerOf(n: Node, h: Digest): Option<Tracker> {
    if h in n.pending then Some(n.pending[h]) else None
  }

  ghost function SelfVote(n: Node): set<Address> {
    if n.self in n.committee then {n.self} else {}
  }

  /** The signers that an entry for `h` starts with: early approvals and the own vote. */
  ghost function FirstSigners(n: Node, h: Digest): set<Address> {
    Elements(Buffered(n, h)) * Members(n.committee) + SelfVote(n)
  }

  /** An approval of `h` that bears the address of the node, a member, has come early. */
  ghost predicate OwnVoteEarly(n: Node, h: Digest) {
    n.self in n.committee && n.self in Buffered(n, h)
  }

  lemma ApproversAppend(s: seq<Event>, t: seq<Event>, h: Digest)
    ensures Approvers(s + t, h) == Approvers(s, h) + Approvers(t, h)
  {
  }

  lemma ApproversOne(e: Event, h: Digest)
    ensures Approvers([e], h) == if e.DeliverApproval? && e.hash == h then {e.signer} else {}
  {
    assert e in [e];
  }

  /** One more event at the end of a stretch. */
  lemma ApproversStep(es: seq<Event>, h: Digest, k: nat, i: nat)
    requires k <= i < |es|
    ensures Approvers(es[k..i + 1], h) ==
            Approvers(es[k..i], h) + if es[i].DeliverApproval? && es[i].hash == h then {es[i].signer} else {}
  {
    assert es[k..i + 1] == es[k..i] + [es[i]];
    ApproversAppend(es[k..i], [es[i]], h);
    ApproversOne(es[i], h);
  }

  /** An acceptable block becomes pending exactly when the node's own vote, if it has one,
      is still to come. */
  lemma EntryIff(n: Node, b: Block)
    requires Acceptable(n, b)
    ensures TrackerOf(ReceiveBlock(n, b), b.hash).Some? <==> !OwnVoteEarly(n, b.hash)
  {
    hide Approved, EarlyTracker;
    EarlyTrackerFacts(n, b);
  }

  /** The tracker that a delivered block starts with. */
  lemma Arrival(n: Node, b: Block)
    requires TrackerOf(n, b.hash).None? && TrackerOf(ReceiveBlock(n, b), b.hash).Some?
    ensures TrackerOf(ReceiveBlock(n, b), b.hash) ==
            Some(Tracker(n.nextId, b, n.committee, FirstSigners(n, b.hash)))
  {
    hide Approved, EarlyTracker;
    EarlyTrackerFacts(n, b);
    var early := Elements(Buffered(n, b.hash)) * Members(n.committee);
    assert EarlyTracker(n, b).signers == early;
    assert n.self !in n.committee ==> early + SelfVote(n) == early;
  }

  lemma BlockLeavesBuffer(n: Node, b: Block, h: Digest)
    requires TrackerOf(n, h).None? && TrackerOf(ReceiveBlock(n, b), h).None? && n.self !in Buffered(n, h)
    ensures Buffered(ReceiveBlock(n, b), h) == Buffered(n, h)
  {
    hide Approved, EarlyTracker, Acceptable, Track;
    if b.hash == h && Acceptable(n, b) {
      EntryIff(n, b);
    }
    TrackKeepsBuffer(Admit(n, b), b.hash, EarlyTracker(n, b));
    TrackKeepsBuffer(Admit(n, b), b.hash, Signed(EarlyTracker(n, b), n.self));
  }

  lemma TrackKeepsBuffer(n: Node, h: Digest, t: Tracker)
    ensures Track(n, h, t).buffer == n.buffer
  {
  }

  /** While a hash stays unknown, its approvals pile up in the buffer. */
  lemma BufferStep(n: Node, e: Event, h: Digest)
    requires TrackerOf(n, h).None? && TrackerOf(Next(n, e), h).None? && n.self !in Buffered(n, h)
    ensures Buffered(Next(n, e), h) ==
            Buffered(n, h) + if e.DeliverApproval? && e.hash == h then [e.signer] else []
  {
    hide Approved, ReceiveBlock, Track;
    match e
    case DeliverBlock(b) => BlockLeavesBuffer(n, b, h);
    case DeliverApproval(g, a) =>
      if g in n.pending {
        TrackKeepsBuffer(n, g, Signed(n.pending[g], a));
      }
    case _ =>
  }

  lemma SelfStays(n: Node, e: Event)
    ensures Next(n, e).self == n.self
  {
    hide Approved, EarlyTracker, Acceptable;
  }

  lemma {:induction false} BufferHoldsApprovers(n: Node, es: seq<Event>, h: Digest, i: nat)
    requires i <= |es| && h !in n.buffer
    requires forall j :: 0 <= j <= i ==> TrackerOf(After(n, es, j), h).None?
    requires n.self !in Approvers(es[..i], h)
    ensures After(n, es, i).self == n.self
    ensures Elements(Buffered(After(n, es, i), h)) == Approvers(es[..i], h)
  {
    hide Next, TrackerOf;
    if i > 0 {
      var m := After(n, es, i - 1);
      ApproversStep(es, h, 0, i - 1);
      BufferHoldsApprovers(n, es, h, i - 1);
      assert n.self !in Elements(Buffered(m, h));
      assert TrackerOf(m, h).None? && TrackerOf(After(n, es, i), h).None?;
      BufferStep(m, es[i - 1], h);
      SelfStays(m, es[i - 1]);
    }
  }

  /** While a hash stays pending, only its own approvals change its tracker. */
  lemma PendingStep(n: Node, e: Event, h: Digest)
    requires h in n.pending && h in Next(n, e).pending
    ensures Next(n, e).pending[h] ==
            if e.DeliverApproval? && e.hash == h then Signed(n.pending[h], e.signer) else n.pending[h]
  {
    hide Approved, EarlyTracker;
  }

  lemma SignedSigners(t: Tracker, a: Address)
    ensures Signed(t, a) == t.(signers := t.signers + {a} * Members(t.committee))
  {
  }

  lemma {:induction false} PendingCollects(n: Node, es: seq<Event>, h: Digest, k: nat, i: nat)
    requires k <= i <= |es|
    requires forall j :: k <= j <= i ==> TrackerOf(After(n, es, j), h).Some?
    ensures var t := TrackerOf(After(n, es, k), h).value;
            TrackerOf(After(n, es, i), h) ==
            Some(t.(signers := t.signers + Approvers(es[k..i], h) * Members(t.committee)))
    decreases i - k
  {
    hide Next, Members, Approvers, Signed;
    var t := TrackerOf(After(n, es, k), h).value;
    if k == i {
      assert Approvers(es[k..i], h) == {} by { NoApprovers(h); assert es[k..i] == []; }
      assert t.signers + {} * Members(t.committee) == t.signers;
    } else {
      ApproversStep(es, h, k, i - 1);
      PendingCollects(n, es, h, k, i - 1);
      assert TrackerOf(After(n, es, i - 1), h).Some? && TrackerOf(After(n, es, i), h).Some?;
      var u := After(n, es, i - 1).pending[h];
      PendingStep(After(n, es, i - 1), es[i - 1], h);
      if es[i - 1].DeliverApproval? && es[i - 1].hash == h {
        var a := es[i - 1].signer;
        SignedSigners(u, a);
        Distribute(t.signers, Approvers(es[k..i - 1], h), {a}, Members(t.committee));
      } else {
        assert Approvers(es[k..i - 1], h) + {} == Approvers(es[k..i - 1], h);
      }
    }
  }

  lemma NoApprovers(h: Digest)
    ensures Approvers([], h) == {}
  {
  }

  lemma Distribute(s: set<Address>, a: set<Address>, b: set<Address>, m: set<Address>)
    ensures s + a * m + b * m == s + (a + b) * m
  {
  }

  /** The block arrives as event `k` and is still pending after event `i`. Provided the node's
      own approval did not come first, the signers are the committee members among all the
      approvers so far, early or late, and the node itself if it is a member. */
  lemma {:induction false} SignerSet(n: Node, es: seq<Event>, h: Digest, k: nat, i: nat)
    requires h !in n.buffer && k < i <= |es|
    requires es[k].DeliverBlock? && es[k].block.hash == h
    requires forall j :: 0 <= j <= k ==> TrackerOf(After(n, es, j), h).None?
    requires forall j :: k < j <= i ==> TrackerOf(After(n, es, j), h).Some?
    requires n.self !in Approvers(es[..k], h)
    ensures var m := After(n, es, k);
            TrackerOf(After(n, es, i), h) ==
            Some(Tracker(m.nextId, es[k].block, m.committee,
                         Approvers(es[..i], h) * Members(m.committee) + SelfVote(m)))
  {
    hide Next, ReceiveBlock, Members, Buffered, SelfVote, Elements, Approvers;
    var m, b := After(n, es, k), es[k].block;
    assert After(n, es, k + 1) == ReceiveBlock(m, b) by { DeliveryStep(n, es, k); }
    assert TrackerOf(m, h).None? && TrackerOf(After(n, es, k + 1), h).Some?;
    BufferHoldsApprovers(n, es, h, k);
    Arrival(m, b);
    PendingCollects(n, es, h, k + 1, i);
    ApproversSplit(es, h, k, i);
    var early, late, seats := Approvers(es[..k], h), Approvers(es[k + 1..i], h), Members(m.committee);
    assert early * seats + SelfVote(m) + late * seats == (early + late) * seats + SelfVote(m);
  }

  /** Approvers before and after the delivery, which itself approves nothing. */
  lemma ApproversSplit(es: seq<Event>, h: Digest, k: nat, i: nat)
    requires k < i <= |es| && es[k].DeliverBlock?
    ensures Approvers(es[..i], h) == Approvers(es[..k], h) + Approvers(es[k + 1..i], h)
  {
    ApproversStep(es, h, 0, k);
    assert es[..i] == es[..k + 1] + es[k + 1..i];
    ApproversAppend(es[..k + 1], es[k + 1..i], h);
  }

  lemma DeliveryStep(n: Node, es: seq<Event>, k: nat)
    requires k < |es| && es[k].DeliverBlock?
    ensures After(n, es, k + 1) == ReceiveBlock(After(n, es, k), es[k].block)
  {
    hide ReceiveBlock;
  }

  // ---- Where signatures come from ----

  /** The node was a member of its committee at some moment before event `i`. */
  ghost predicate WasMember(n: Node, es: seq<Event>, i: nat)
    requires i <= |es|
  {
    exists j :: 0 <= j < i && SelfVote(After(n, es, j)) != {}
  }

  ghost function OwnVotes(n: Node, es: seq<Event>, i: nat): set<Address>
    requires i <= |es|
  {
    if WasMember(n, es, i) then {n.self} else {}
  }

  lemma BlockBuffer(n: Node, b: Block, h: Digest)
    ensures Elements(Buffered(ReceiveBlock(n, b), h)) <= Elements(Buffered(n, h))
  {
    hide Approved, Acceptable, EarlyTracker, Track;
    TrackKeepsBuffer(Admit(n, b), b.hash, EarlyTracker(n, b));
    TrackKeepsBuffer(Admit(n, b), b.hash, Signed(EarlyTracker(n, b), n.self));
  }

  lemma BufferGrows(n: Node, e: Event, h: Digest)
    ensures Elements(Buffered(Next(n, e), h)) <= Elements(Buffered(n, h)) + Approvers([e], h)
  {
    hide Approved, ReceiveBlock, Track, Approvers;
    ApproversOne(e, h);
    match e
    case DeliverBlock(b) => BlockBuffer(n, b, h);
    case DeliverApproval(g, a) =>
      if g in n.pending {
        TrackKeepsBuffer(n, g, Signed(n.pending[g], a));
      }
    case _ =>
  }

  /** One step adds to the signers of `h` only the early approvals, if the block arrives with
      it, the approval that it delivers, and the own vote of a member. */
  lemma SignersGrow(n: Node, e: Event, h: Digest)
    requires TrackerOf(Next(n, e), h).Some?
    ensures TrackerOf(Next(n, e), h).value.signers <=
            (if h in n.pending then n.pending[h].signers else Elements(Buffered(n, h)))
            + Approvers([e], h) + SelfVote(n)
  {
    hide Next, Approvers, SelfVote;
    ApproversOne(e, h);
    if h in n.pending {
      PendingStep(n, e, h);
    } else {
      ArrivesByDelivery(n, e, h);
      assert Next(n, e) == ReceiveBlock(n, e.block) by { DeliveryIsReceipt(n, e.block); }
      Arrival(n, e.block);
    }
  }

  lemma DeliveryIsReceipt(n: Node, b: Block)
    ensures Next(n, DeliverBlock(b)) == ReceiveBlock(n, b)
  {
    hide ReceiveBlock;
  }

  lemma ArrivesByDelivery(n: Node, e: Event, h: Digest)
    requires h !in n.pending && h in Next(n, e).pending
    ensures e.DeliverBlock? && e.block.hash == h
  {
    hide Approved, EarlyTracker, Acceptable;
  }

  /** In every run, every signature on a pending block was delivered in an approval, early or
      late, or is the vote of the node itself while it was a member. */
  lemma {:induction false} SignersVoted(n: Node, es: seq<Event>, i: nat, h: Digest)
    requires n.pending == map[] && n.buffer == map[] && i <= |es|
    ensures After(n, es, i).self == n.self
    ensures Elements(Buffered(After(n, es, i), h)) <= Approvers(es[..i], h)
    ensures TrackerOf(After(n, es, i), h).Some? ==>
              TrackerOf(After(n, es, i), h).value.signers <= Approvers(es[..i], h) + OwnVotes(n, es, i)
  {
    hide Next, Approvers;
    if i > 0 {
      var m := After(n, es, i - 1);
      SignersVoted(n, es, i - 1, h);
      SelfStays(m, es[i - 1]);
      ApproversStep(es, h, 0, i - 1);
      ApproversOne(es[i - 1], h);
      BufferGrows(m, es[i - 1], h);
      if TrackerOf(After(n, es, i), h).Some? {
        SignersGrow(m, es[i - 1], h);
        assert SelfVote(m) <= OwnVotes(n, es, i);
        assert OwnVotes(n, es, i - 1) <= OwnVotes(n, es, i);
      }
    }
  }

  // ---- A block on its first arrival ----

  ghost predicate Delivers(e: Event, h: Digest) {
    e.DeliverBlock? && e.block.hash == h
  }

  lemma OtherBlockBuffer(n: Node, b: Block, h: Digest)
    requires b.hash != h
    ensures Buffered(ReceiveBlock(n, b), h) == Buffered(n, h)
  {
    hide Approved, Acceptable, EarlyTracker, Track;
    TrackKeepsBuffer(Admit(n, b), b.hash, EarlyTracker(n, b));
    TrackKeepsBuffer(Admit(n, b), b.hash, Signed(EarlyTracker(n, b), n.self));
  }

  lemma UnseenStep(n: Node, e: Event, h: Digest)
    requires h !in n.pending && !Delivers(e, h)
    ensures h !in Next(n, e).pending
    ensures Elements(Buffered(Next(n, e), h)) == Elements(Buffered(n, h)) + Approvers([e], h)
  {
    hide Next, Approvers;
    if h in Next(n, e).pending {
      ArrivesByDelivery(n, e, h);
    }
    UnseenApprovals(n, e, h);
  }

  lemma UnseenApprovals(n: Node, e: Event, h: Digest)
    requires h !in n.pending && !Delivers(e, h)
    ensures Elements(Buffered(Next(n, e), h)) == Elements(Buffered(n, h)) + Approvers([e], h)
  {
    hide Approved, ReceiveBlock, Track, Approvers, Tick, Timeout, Finalize, AddAndExecute;
    ApproversOne(e, h);
    match e
    case DeliverBlock(b) => OtherBlockBuffer(n, b, h);
    case DeliverApproval(g, a) =>
      if g in n.pending {
        TrackKeepsBuffer(n, g, Signed(n.pending[g], a));
      }
    case _ => OthersKeepBuffer(n, e);
  }

  lemma OthersKeepBuffer(n: Node, e: Event)
    requires !e.DeliverBlock? && !e.DeliverApproval?
    ensures Next(n, e).buffer == n.buffer
  {
    hide ReceiveBlock, ReceiveApproval, Tick, Timeout, Finalize;
    match e
    case WatchTick(b) => TickKeepsBuffer(n, b);
    case WatchTimeout(b) => TimeoutKeepsBuffer(n, b);
    case RunTask(task) => FinalizeKeepsBuffer(n, task);
    case _ =>
  }

  lemma TickKeepsBuffer(n: Node, b: Block)
    ensures Tick(n, b).buffer == n.buffer
  {
    hide Approved;
  }

  lemma TimeoutKeepsBuffer(n: Node, b: Block)
    ensures Timeout(n, b).buffer == n.buffer
  {
  }

  lemma FinalizeKeepsBuffer(n: Node, task: Task)
    ensures Finalize(n, task).buffer == n.buffer
  {
  }

  lemma {:induction false} UnseenBuffer(n: Node, es: seq<Event>, i: nat, h: Digest)
    requires n.pending == map[] && n.buffer == map[] && i <= |es|
    requires forall j :: 0 <= j < i ==> !Delivers(es[j], h)
    ensures h !in After(n, es, i).pending
    ensures Elements(Buffered(After(n, es, i), h)) == Approvers(es[..i], h)
  {
    hide Next, Approvers;
    if i == 0 {
      NoApprovers(h);
      assert es[..0] == [];
    } else {
      UnseenBuffer(n, es, i - 1, h);
      UnseenStep(After(n, es, i - 1), es[i - 1], h);
      ApproversStep(es, h, 0, i - 1);
      ApproversOne(es[i - 1], h);
    }
  }

  /** In every run, a block that arrives for the first time and is acceptable becomes pending
      exactly unless the node is a member and an approval bearing its own address came first. */
  lemma {:induction false} FirstArrivalIff(n: Node, es: seq<Event>, i: nat, b: Block)
    requires Init(n) && i <= |es| && Acceptable(After(n, es, i), b)
    requires forall j :: 0 <= j < i ==> !Delivers(es[j], b.hash)
    ensures var m := After(n, es, i);
            b.hash in Next(m, DeliverBlock(b)).pending <==>
            !(n.self in m.committee && n.self in Approvers(es[..i], b.hash))
  {
    hide Next, Approvers, Acceptable, ReceiveBlock;
    var m := After(n, es, i);
    SignersVoted(n, es, i, b.hash);
    UnseenBuffer(n, es, i, b.hash);
    EntryIff(m, b);
    DeliveryIsReceipt(m, b);
    assert n.self in Buffered(m, b.hash) <==> n.self in Elements(Buffered(m, b.hash));
  }
}
