/**
 Agreement on the block of a height: how many members of a committee may sign two hashes of
 one height before two nodes can finalise different blocks there. Both directions.
 */
module Agreement {
  import opened Base
  import opened Approvals
  import opened Consensus
  import opened SignerSets
  import opened ConsensusRuns

  /** At some moment of the run the signature of `a` stood on `b`. */
  ghost predicate Signs(n: Node, es: seq<Event>, a: Address, b: Block) {
    exists k :: 0 <= k <= |es| && SignedAt(After(n, es, k), a, b)
  }

  ghost predicate SignedAt(n: Node, a: Address, b: Block) {
    b.hash in n.pending && n.pending[b.hash].block == b && a in n.pending[b.hash].signers
  }

  /** Nobody but the faulty signs, in the two runs, two hashes of one height. */
  ghost predicate OneHashPerHeight(m: Node, es: seq<Event>, n: Node, fs: seq<Event>, faulty: set<Address>) {
    forall a, b, c :: a !in faulty && Signs(m, es, a, b) && Signs(n, fs, a, c) && b.number == c.number ==>
      b.hash == c.hash
  }

  /** What two quorums of `n` members have in common at least. */
  function Overlap(n: nat): int {
    2 * Threshold(n) - n
  }

  // ---- Few faulty members: agreement ----

  /** Whenever in two runs two hashes were approved by one committee, the two signer sets
      overlap, by more than the floor((n-1)/3) members that may be faulty. */
  lemma {:induction false} ApprovedQuorumsMeet(m: Node, es: seq<Event>, p: nat, g: Digest,
                                               n: Node, fs: seq<Event>, q: nat, h: Digest)
    requires ApprovedAt(m, es, p, g) && ApprovedAt(n, fs, q, h)
    requires After(m, es, p).pending[g].committee == After(n, fs, q).pending[h].committee
    ensures var s, t := After(m, es, p).pending[g], After(n, fs, q).pending[h];
            && |s.signers * t.signers| >= Overlap(|s.committee|) >= (|s.committee| - 1) / 3 + 1
            && s.signers * t.signers <= Members(s.committee)
  {
    hide After, Approved;
    QuorumsIntersect(After(m, es, p).pending[g], After(n, fs, q).pending[h]);
  }

  lemma SignerOutside(signers: set<Address>, faulty: set<Address>) returns (a: Address)
    requires |signers| > |faulty|
    ensures a in signers && a !in faulty
  {
    if signers <= faulty {
      SubsetSize(signers, faulty);
    }
    a :| a in signers && a !in faulty;
  }

  lemma SignsAt(n: Node, es: seq<Event>, k: nat, h: Digest, a: Address)
    requires Init(n) && k <= |es| && h in After(n, es, k).pending && a in After(n, es, k).pending[h].signers
    ensures After(n, es, k).pending[h].block.hash == h && Signs(n, es, a, After(n, es, k).pending[h].block)
  {
    hide Next, Approved, SignersInCommittee;
    RunInv(n, es, k);
    assert SignedAt(After(n, es, k), a, After(n, es, k).pending[h].block);
  }

  /** Whenever in two runs two hashes of one height were approved by one committee, they are
      the same hash, if fewer of its members are faulty than two quorums have in common. */
  lemma {:induction false} ApprovedAgree(m: Node, es: seq<Event>, p: nat, g: Digest,
                                         n: Node, fs: seq<Event>, q: nat, h: Digest, faulty: set<Address>)
    requires Init(m) && Init(n) && ApprovedAt(m, es, p, g) && ApprovedAt(n, fs, q, h)
    requires OneHashPerHeight(m, es, n, fs, faulty)
    requires var s, t := After(m, es, p).pending[g], After(n, fs, q).pending[h];
             && s.committee == t.committee && s.block.number == t.block.number
             && |faulty * Members(s.committee)| < Overlap(|s.committee|)
    ensures g == h
  {
    hide After, Approved, Signs, SignersInCommittee, Overlap;
    var s, t := After(m, es, p).pending[g], After(n, fs, q).pending[h];
    ApprovedQuorumsMeet(m, es, p, g, n, fs, q, h);
    var a := SignerOutside(s.signers * t.signers, faulty * Members(s.committee));
    SignsAt(m, es, p, g, a);
    SignsAt(n, fs, q, h, a);
  }

  /** A run, and the event of it that finalises `hash`. */
  datatype Final = Final(node: Node, events: seq<Event>, step: nat, hash: Digest)

  ghost predicate Finalizes(f: Final) {
    && Init(f.node) && f.step < |f.events|
    && f.events[f.step].RunTask? && f.events[f.step].task.block.hash == f.hash
    && After(f.node, f.events, f.step + 1).claims != After(f.node, f.events, f.step).claims
  }

  /** The finalised hash got its approval from committee `c`, for height `k`. */
  ghost predicate Under(f: Final, c: seq<Address>, k: Word) {
    && Finalizes(f)
    && forall p :: 0 <= p <= f.step && ApprovedAt(f.node, f.events, p, f.hash) ==>
         var t := After(f.node, f.events, p).pending[f.hash];
         t.committee == c && t.block.number == k
  }

  /** Two nodes that finalise a block of one height under committee `c` finalise the same one,
      in any runs in which only the faulty sign two hashes of a height. */
  ghost predicate Agrees(c: seq<Address>, faulty: set<Address>) {
    forall f, g, k ::
      Under(f, c, k) && Under(g, c, k) && OneHashPerHeight(f.node, f.events, g.node, g.events, faulty) ==>
        f.hash == g.hash
  }

  lemma {:induction false} FinalizedAgree(f: Final, g: Final, c: seq<Address>, k: Word, faulty: set<Address>)
    requires Under(f, c, k) && Under(g, c, k)
    requires OneHashPerHeight(f.node, f.events, g.node, g.events, faulty)
    requires |faulty * Members(c)| < Overlap(|c|)
    ensures f.hash == g.hash
  {
    hide After, Approved, Signs, SignersInCommittee, OneHashPerHeight, Overlap;
    var p := FinalizedWasApproved(f.node, f.events, f.step);
    var q := FinalizedWasApproved(g.node, g.events, g.step);
    ApprovedAgree(f.node, f.events, p, f.hash, g.node, g.events, q, g.hash, faulty);
  }

  // ---- Too many faulty members: two quorums that only meet among them ----

  lemma {:induction false} SubsetOfSize(s: set<Address>, k: nat) returns (a: set<Address>)
    requires k <= |s|
    ensures a <= s && |a| == k
    decreases k
  {
    a := {};
    if k > 0 {
      var x :| x in s;
      a := SubsetOfSize(s - {x}, k - 1);
      a := a + {x};
    }
  }

  lemma TwoQuorums(members: set<Address>, faulty: set<Address>, t: nat) returns (p: set<Address>, q: set<Address>)
    requires faulty <= members && t <= |members| && |faulty| >= 2 * t - |members|
    ensures p <= members && q <= members && |p| >= t && |q| >= t && p * q <= faulty
  {
    var honest := members - faulty;
    SizeSplit(members, faulty);
    var half := SubsetOfSize(honest, if t <= |faulty| then 0 else t - |faulty|);
    SizeSplit(honest, half);
    p, q := Joined(members, faulty, half), Joined(members, faulty, honest - half);
  }

  lemma SizeSplit(s: set<Address>, a: set<Address>)
    requires a <= s
    ensures |s - a| == |s| - |a|
  {
    assert s == a + (s - a);
  }

  function Joined(members: set<Address>, faulty: set<Address>, some: set<Address>): (r: set<Address>)
    requires faulty <= members && some <= members - faulty
    ensures r <= members && |r| == |faulty| + |some|
  {
    faulty + some
  }

  lemma {:induction false} Listing(s: set<Address>) returns (l: seq<Address>)
    ensures Elements(l) == s
  {
    l := [];
    if s != {} {
      var a :| a in s;
      var rest := Listing(s - {a});
      l := [a] + rest;
      assert Elements(l) == {a} + Elements(rest);
    }
  }

  // ---- Each of them finalises a block of its own ----

  ghost function Start(self: Address, c: seq<Address>, genesis: Block): Node {
    Node(self, c, map[], map[], multiset{}, multiset{}, map[0 := genesis], 0, 0, {}, [], [])
  }

  /** The block comes, then the approvals. */
  ghost function VoteEvents(b: Block, s: seq<Address>): seq<Event> {
    [DeliverBlock(b)] + seq(|s|, i requires 0 <= i < |s| => DeliverApproval(b.hash, s[i]))
  }

  lemma {:induction false} AfterPrefix(n: Node, es: seq<Event>, t: seq<Event>, i: nat)
    requires i <= |es|
    ensures After(n, es + t, i) == After(n, es, i)
  {
    hide Next;
    if i > 0 {
      AfterPrefix(n, es, t, i - 1);
    }
  }

  lemma StaysPending(n: Node, h: Digest, g: Digest, a: Address)
    requires h in n.pending
    ensures h in Next(n, DeliverApproval(g, a)).pending
  {
    hide Approved;
  }

  /** The block is admitted and stays pending while the approvals come in. */
  lemma {:induction false} VotesPending(n: Node, b: Block, s: seq<Address>, i: nat)
    requires n.self !in n.committee && Acceptable(n, b) && 0 < i <= |s| + 1
    ensures TrackerOf(After(n, VoteEvents(b, s), i), b.hash).Some?
  {
    hide Next, ReceiveBlock, Acceptable;
    var es := VoteEvents(b, s);
    if i == 1 {
      assert After(n, es, 0) == n && es[0] == DeliverBlock(b);
      DeliveryStep(n, es, 0);
      EntryIff(n, b);
    } else {
      VotesPending(n, b, s, i - 1);
      StaysPending(After(n, es, i - 1), b.hash, b.hash, s[i - 2]);
    }
  }

  lemma VoteApprovers(b: Block, s: seq<Address>, i: nat, h: Digest)
    requires i <= |s| + 1
    ensures Approvers(VoteEvents(b, s)[..i], h) <= Elements(s)
    ensures Approvers(VoteEvents(b, s), b.hash) == Elements(s)
  {
    var es := VoteEvents(b, s);
    forall a | a in Elements(s) ensures a in Approvers(es, b.hash) {
      var j :| 0 <= j < |s| && s[j] == a;
      assert es[j + 1] == DeliverApproval(b.hash, a);
    }
  }

  /** The entry after any number of the approvals. */
  lemma {:induction false} VotesTracker(n: Node, b: Block, s: seq<Address>, i: nat)
    requires Init(n) && n.self !in n.committee && Acceptable(n, b) && 0 < i <= |s| + 1
    ensures var es := VoteEvents(b, s);
            TrackerOf(After(n, es, i), b.hash) ==
            Some(Tracker(0, b, n.committee, Approvers(es[..i], b.hash) * Members(n.committee)))
  {
    hide Next, Approvers, Members, Acceptable;
    var es := VoteEvents(b, s);
    forall j | 0 < j <= i ensures TrackerOf(After(n, es, j), b.hash).Some? {
      VotesPending(n, b, s, j);
    }
    assert After(n, es, 0) == n && es[..0] == [];
    NoApprovers(b.hash);
    SignerSet(n, es, b.hash, 0, i);
    var voters := Approvers(es[..i], b.hash) * Members(n.committee);
    assert voters + SelfVote(n) == voters;
  }

  /** The votes in full, and the finalise task that they call for. */
  lemma {:induction false} QuorumFinalizes(n: Node, b: Block, s: seq<Address>) returns (task: Task)
    requires Init(n) && n.self !in n.committee && Acceptable(n, b)
    requires Elements(s) <= Members(n.committee) && |Elements(s)| >= Threshold(|n.committee|)
    ensures task.block.hash == b.hash
    ensures Finalizes(Final(n, VoteEvents(b, s) + [RunTask(task)], |s| + 1, b.hash))
  {
    hide Next, Approvers, Acceptable, Init, Elements;
    var es := VoteEvents(b, s);
    var i := |s| + 1;
    VotesTracker(n, b, s, i);
    VoteApprovers(b, s, i, b.hash);
    assert es[..i] == es && Elements(s) * Members(n.committee) == Elements(s);
    task := ApprovedCanBeClaimed(n, es, i, b.hash);
    var run := es + [RunTask(task)];
    AfterPrefix(n, es, [RunTask(task)], i);
    assert After(n, run, i + 1) == Next(After(n, run, i), RunTask(task));
  }

  lemma {:induction false} QuorumUnder(n: Node, b: Block, s: seq<Address>, task: Task)
    requires Init(n) && n.self !in n.committee && Acceptable(n, b)
    requires Finalizes(Final(n, VoteEvents(b, s) + [RunTask(task)], |s| + 1, b.hash))
    ensures Under(Final(n, VoteEvents(b, s) + [RunTask(task)], |s| + 1, b.hash), n.committee, b.number)
  {
    hide Next, Approvers, Acceptable, Approved, SignersInCommittee, Finalizes;
    var es := VoteEvents(b, s);
    var run := es + [RunTask(task)];
    forall p | 0 <= p <= |s| + 1 && ApprovedAt(n, run, p, b.hash)
      ensures var t := After(n, run, p).pending[b.hash]; t.committee == n.committee && t.block.number == b.number
    {
      AfterPrefix(n, es, [RunTask(task)], p);
      if p > 0 {
        VotesTracker(n, b, s, p);
      }
    }
  }

  lemma {:induction false} CommitteeStays(n: Node, es: seq<Event>, i: nat)
    requires i <= |es| && forall e :: e in es ==> !e.Elect?
    ensures After(n, es, i).committee == n.committee && After(n, es, i).self == n.self
  {
    hide Next;
    if i > 0 {
      CommitteeStays(n, es, i - 1);
      CommitteeStep(After(n, es, i - 1), es[i - 1]);
      SelfStays(After(n, es, i - 1), es[i - 1]);
    }
  }

  lemma CommitteeStep(n: Node, e: Event)
    requires !e.Elect?
    ensures Next(n, e).committee == n.committee
  {
    hide Approved, EarlyTracker, Acceptable;
  }

  /** In such a run only those sign whose approvals came. */
  lemma {:induction false} OnlyVotersSign(n: Node, b: Block, s: seq<Address>, task: Task, a: Address, x: Block)
    requires Init(n) && n.self !in n.committee && Signs(n, VoteEvents(b, s) + [RunTask(task)], a, x)
    ensures a in Elements(s)
  {
    hide Next, Elements, Approvers;
    var es := VoteEvents(b, s) + [RunTask(task)];
    var k :| 0 <= k <= |es| && SignedAt(After(n, es, k), a, x);
    SignersVoted(n, es, k, x.hash);
    forall j | 0 <= j < k ensures SelfVote(After(n, es, j)) == {} {
      CommitteeStays(n, es, j);
    }
    assert !WasMember(n, es, k);
    RunApprovers(b, s, task, k, x.hash);
  }

  lemma RunApprovers(b: Block, s: seq<Address>, task: Task, k: nat, h: Digest)
    requires k <= |s| + 2
    ensures Approvers((VoteEvents(b, s) + [RunTask(task)])[..k], h) <= Elements(s)
  {
  }

  /** With as many faulty members as two quorums must have in common, two nodes outside the
      committee finalise any two blocks of one height, and only faulty members sign both. */
  lemma {:induction false} Disagreement(c: seq<Address>, faulty: set<Address>, x: Address, y: Address,
                                        genesis: Block, b: Block, d: Block) returns (f: Final, g: Final)
    requires DistinctMembers(c) && |faulty * Members(c)| >= Overlap(|c|) && x !in c && y !in c
    requires b.number == d.number <= 10 && genesis.hash != b.hash && genesis.hash != d.hash
    ensures f.node == Start(x, c, genesis) && f.hash == b.hash && Under(f, c, b.number)
    ensures g.node == Start(y, c, genesis) && g.hash == d.hash && Under(g, c, d.number)
    ensures OneHashPerHeight(f.node, f.events, g.node, g.events, faulty)
  {
    hide Next, Approvers, VoteEvents, Finalizes, Under, Signs, Elements;
    CommitteeSize(c);
    SubsetSize(faulty * Members(c), Members(c));
    var p, q := TwoQuorums(Members(c), faulty * Members(c), Threshold(|c|));
    var s := Listing(p);
    var t := Listing(q);
    var m, n := Start(x, c, genesis), Start(y, c, genesis);
    var u := QuorumFinalizes(m, b, s);
    var v := QuorumFinalizes(n, d, t);
    f := Final(m, VoteEvents(b, s) + [RunTask(u)], |s| + 1, b.hash);
    g := Final(n, VoteEvents(d, t) + [RunTask(v)], |t| + 1, d.hash);
    QuorumUnder(m, b, s, u);
    QuorumUnder(n, d, t, v);
    forall a, b', d' | Signs(m, f.events, a, b') && Signs(n, g.events, a, d') ensures a in faulty {
      OnlyVotersSign(m, b, s, u, a, b');
      OnlyVotersSign(n, d, t, v, a, d');
      assert a in p * q;
    }
  }

  /** The exact bound: nodes agree on every height, whatever the runs, exactly as long as
      fewer members are faulty than two quorums must have in common. */
  lemma {:induction false} AgreementIff(c: seq<Address>, faulty: set<Address>, x: Address)
    requires DistinctMembers(c) && x !in c
    ensures Agrees(c, faulty) <==> |faulty * Members(c)| < Overlap(|c|)
  {
    hide Under, OneHashPerHeight, Overlap;
    if |faulty * Members(c)| < Overlap(|c|) {
      forall f, g, k | Under(f, c, k) && Under(g, c, k)
        && OneHashPerHeight(f.node, f.events, g.node, g.events, faulty) ensures f.hash == g.hash
      {
        FinalizedAgree(f, g, c, k, faulty);
      }
    } else {
      var one: Digest, two: Digest := seq(32, _ => 1), seq(32, _ => 2);
      assert ZERO_DIGEST[0] == 0 && one[0] == 1 && two[0] == 2;
      var f, g := Disagreement(c, faulty, x, x, Block(ZERO_DIGEST, 0, []), Block(one, 1, []), Block(two, 1, []));
    }
  }
}
