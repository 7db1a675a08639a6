/** Approval of one block by its committee: block_approval.go, and why its threshold works. */
module Approvals {
  import opened Base
  import opened Ledger

  datatype Block = Block(hash: Digest, number: Word, txs: seq<Tx>)

  /** A block under approval. `id` tells apart the trackers that one hash may have over
      time, as object identity does in the Go code. */
  datatype Tracker = Tracker(id: nat, block: Block, committee: seq<Address>, signers: set<Address>)

  function Threshold(n: nat): nat {
    2 * n / 3 + 1
  }

  function NewTracker(id: nat, block: Block, committee: seq<Address>): Tracker {
    Tracker(id, block, committee, {})
  }

  predicate Approved(t: Tracker) {
    |t.signers| >= Threshold(|t.committee|)
  }

  /** A signature counts once, and from committee members only. */
  predicate Accepts(t: Tracker, a: Address) {
    a in t.committee && a !in t.signers
  }

  function Signed(t: Tracker, a: Address): Tracker {
    if Accepts(t, a) then t.(signers := t.signers + {a}) else t
  }

  ghost function Members(committee: seq<Address>): set<Address> {
    set a | a in committee
  }

  ghost predicate SignersInCommittee(t: Tracker) {
    t.signers <= Members(t.committee)
  }

  /** The tracker on the heap. Of the map from signer to signature only the signers matter. */
  class BlockApproval {
    ghost const id: nat
    const block: Block
    const committee: seq<Address>
    const threshold: nat
    var signatures: set<Address>

    ghost function View(): Tracker
      reads this
    {
      Tracker(id, block, committee, signatures)
    }

    ghost predicate Valid()
      reads this
    {
      threshold == Threshold(|committee|) && SignersInCommittee(View())
    }

    constructor (ghost id: nat, block: Block, committee: seq<Address>)
      ensures Valid() && View() == NewTracker(id, block, committee)
    {
      this.id, this.block, this.committee := id, block, committee;
      threshold := 2 * |committee| / 3 + 1;
      signatures := {};
    }

    method IsCommitteeMember(addr: Address) returns (b: bool)
      ensures b <==> addr in committee
    {
      for i := 0 to |committee|
        invariant addr !in committee[..i]
      {
        if committee[i] == addr {
          return true;
        }
      }
      return false;
    }

    method AddSignature(addr: Address) returns (ok: bool)
      requires Valid()
      modifies this
      ensures Valid()
      ensures ok <==> Accepts(old(View()), addr)
      ensures View() == Signed(old(View()), addr)
    {
      var member := IsCommitteeMember(addr);
      if !member || HasSignature(addr) {
        return false;
      }
      signatures := signatures + {addr};
      return true;
    }

    predicate HasSignature(addr: Address)
      reads this
    {
      addr in signatures
    }

    predicate IsApproved()
      reads this
      requires Valid()
      ensures IsApproved() <==> Approved(View())
    {
      |signatures| >= threshold
    }
  }

  /** With n members, the threshold is n less the floor((n-1)/3) that may fail. */
  lemma ThresholdIsByzantine(n: nat)
    requires n >= 1
    ensures Threshold(n) == n - (n - 1) / 3 && Threshold(n) <= n
  {
  }

  ghost predicate DistinctMembers(committee: seq<Address>) {
    forall i, j :: 0 <= i < j < |committee| ==> committee[i] != committee[j]
  }

  lemma {:induction false} CommitteeSize(committee: seq<Address>)
    ensures |Members(committee)| <= |committee|
    ensures DistinctMembers(committee) ==> |Members(committee)| == |committee|
  {
    if committee != [] {
      var init, last := committee[..|committee| - 1], committee[|committee| - 1];
      CommitteeSize(init);
      assert Members(committee) == Members(init) + {last};
      assert DistinctMembers(committee) ==> last !in init;
    }
  }

  lemma SubsetSize<T>(a: set<T>, b: set<T>)
    requires a <= b
    ensures |a| <= |b|
  {
    assert b == a + (b - a);
  }

  /** Never more signers than seats; and two approved trackers of one committee have more
      signers in common than the committee may have faulty members: twice the threshold less
      the number of seats. */
  lemma QuorumsIntersect(s: Tracker, t: Tracker)
    requires SignersInCommittee(s) && SignersInCommittee(t) && s.committee == t.committee
    requires Approved(s) && Approved(t)
    ensures |s.committee| >= 1 && |s.signers| <= |s.committee|
    ensures |s.signers * t.signers| >= 2 * Threshold(|s.committee|) - |s.committee| >= (|s.committee| - 1) / 3 + 1
  {
    var n := |s.committee|;
    CommitteeSize(s.committee);
    SubsetSize(s.signers, Members(s.committee));
    SubsetSize(s.signers + t.signers, Members(s.committee));
    assert |s.signers + t.signers| == |s.signers| + |t.signers| - |s.signers * t.signers|;
  }

  /** Approval is within reach: a fully signed committee of distinct members is approved. */
  lemma FullCommitteeApproves(t: Tracker)
    requires |t.committee| >= 1 && DistinctMembers(t.committee) && t.signers == Members(t.committee)
    ensures Approved(t)
  {
    CommitteeSize(t.committee);
  }
}
