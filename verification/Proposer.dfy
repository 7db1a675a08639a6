/** Proposer rotation of committee.go, and the elections of node.go that use it. */
module Proposers {
  import opened Base
  import opened Ledger
  import opened Validators
  import opened Committees

  const TURN := 9
  const EPOCH_LENGTH: Word := 270
  const COMMITTEE_SIZE := 30

  datatype ProposerSelector = ProposerSelector(
    committee: seq<Validator>, slots: map<Word, Validator>, epochStart: Word, epochLength: Word)

  /** `rand.Perm(n)`: every position once. */
  ghost predicate IsPermutation(perm: seq<nat>, n: nat) {
    && |perm| == n
    && (forall i :: 0 <= i < n ==> perm[i] < n)
    && (forall i, j :: 0 <= i < j < n ==> perm[i] != perm[j])
    && (forall p :: 0 <= p < n ==> p in perm)
  }

  /** The committee position that serves the `o`-th height of an epoch: nine heights each in
      shuffled order, then round-robin in committee order. */
  ghost function PositionAt(perm: seq<nat>, n: nat, o: nat): nat
    requires n > 0 && |perm| == n
  {
    if o < TURN * n then perm[o / TURN] else o % n
  }

  /** Nobody to choose from, no heights, or an epoch end beyond 64 bits: no slots. */
  predicate Degenerate(n: nat, start: Word, length: Word) {
    n == 0 || length == 0 || start + length >= WORD
  }

  ghost predicate Filled(slots: map<Word, Validator>, committee: seq<Validator>, perm: seq<nat>,
                         start: Word, length: nat)
    requires IsPermutation(perm, |committee|) && |committee| > 0
  {
    && (forall h :: h in slots <==> start <= h < start + length)
    && (forall h :: h in slots ==>
          PositionAt(perm, |committee|, h - start) < |committee| &&
          slots[h] == committee[PositionAt(perm, |committee|, h - start)])
  }

  /** Slots cover exactly the heights of the epoch, as `PositionAt` says. (`int` holds offsets
      up to 2^63 only: beyond, the round-robin of the Go code indexes out of range.) */
  method NewProposerSelectorWithRotation(committee: seq<Validator>, epochStart: Word, epochLength: Word, perm: seq<nat>)
    returns (ps: ProposerSelector)
    requires IsPermutation(perm, |committee|)
    requires || Degenerate(|committee|, epochStart, epochLength)
             || epochLength <= 0x8000_0000_0000_0000 || epochLength <= TURN * |committee|
    ensures ps == ProposerSelector(committee, ps.slots, epochStart, epochLength)
    ensures if Degenerate(|committee|, epochStart, epochLength) then ps.slots == map[]
            else Filled(ps.slots, committee, perm, epochStart, epochLength)
  {
    var slots: map<Word, Validator> := map[];
    if |committee| == 0 || epochLength == 0 {
      return ProposerSelector(committee, slots, epochStart, epochLength);
    }
    hide Wrap, Filled, IsPermutation;
    EpochEnd(epochStart, epochLength);
    var end := Plus(epochStart, epochLength);
    var block: Word := epochStart;
    if block < end {
      slots, block := FillTurns(committee, epochStart, end, perm);
      slots := FillRest(committee, epochStart, end, perm, slots, block);
    }
    ps := ProposerSelector(committee, slots, epochStart, epochLength);
  }

  /** The end of the epoch lies ahead exactly when it fits in 64 bits. */
  lemma EpochEnd(start: Word, length: Word)
    ensures length > 0 ==> (start < Plus(start, length) <==> start + length < WORD)
    ensures start + length < WORD ==> Plus(start, length) == start + length
  {
  }

  method FillTurns(committee: seq<Validator>, start: Word, end: Word, perm: seq<nat>)
    returns (slots: map<Word, Validator>, block: Word)
    requires |committee| > 0 && IsPermutation(perm, |committee|) && start < end
    ensures start <= block <= end
    ensures block == if start + TURN * |committee| < end then start + TURN * |committee| else end
    ensures Filled(slots, committee, perm, start, block - start)
  {
    slots, block := map[], start;
    for k := 0 to |perm|
      invariant start <= block <= end
      invariant block == if start + TURN * k < end then start + TURN * k else end
      invariant Filled(slots, committee, perm, start, block - start)
    {
      var validator := committee[perm[k]];
      var i := 0;
      while i < TURN && block < end
        invariant 0 <= i <= TURN && start <= block <= end
        invariant block == if start + TURN * k + i < end then start + TURN * k + i else end
        invariant Filled(slots, committee, perm, start, block - start)
      {
        assert (block - start) / TURN == k;
        slots := slots[block := validator];
        block := block + 1;
        i := i + 1;
      }
    }
  }

  method FillRest(committee: seq<Validator>, start: Word, end: Word, perm: seq<nat>,
                  slots0: map<Word, Validator>, block0: Word)
    returns (slots: map<Word, Validator>)
    requires |committee| > 0 && IsPermutation(perm, |committee|)
    requires start <= block0 <= end && (block0 == end || block0 == start + TURN * |committee|)
    requires Filled(slots0, committee, perm, start, block0 - start)
    ensures Filled(slots, committee, perm, start, end - start)
  {
    slots := slots0;
    for block := block0 to end
      invariant Filled(slots, committee, perm, start, block - start)
    {
      slots := slots[block := committee[(block - start) % |committee|]];
    }
  }

  // ---- Fairness ----

  /** How many of the first `length` heights position `p` serves. */
  ghost function Served(perm: seq<nat>, n: nat, p: nat, length: nat): nat
    requires n > 0 && |perm| == n
  {
    if length == 0 then 0
    else Served(perm, n, p, length - 1) + if PositionAt(perm, n, length - 1) == p then 1 else 0
  }

  /** In an epoch too short for everybody's nine, the shuffled positions get nine each until
      the epoch runs out. */
  lemma {:induction false} ShortEpochTurns(perm: seq<nat>, n: nat, k: nat, length: nat)
    requires n > 0 && IsPermutation(perm, n) && k < n && length <= 9 * n
    ensures Served(perm, n, perm[k], length) ==
            if length <= 9 * k then 0 else if length >= 9 * k + 9 then 9 else length - 9 * k
  {
    if length > 0 {
      ShortEpochTurns(perm, n, k, length - 1);
      var j := (length - 1) / TURN;
      assert j < n && (perm[j] == perm[k] <==> j == k);
    }
  }

  lemma MultipleGap(d: int, n: nat)
    requires n > 0
    ensures d >= 1 ==> d * n >= n
    ensures d <= -1 ==> d * n <= -1 * n
  {
  }

  lemma DivModUnique(x: nat, n: nat, q: nat, r: nat)
    requires n > 0 && r < n && x == q * n + r
    ensures x / n == q && x % n == r
  {
    var d := x / n - q;
    assert d * n == r - x % n;
    MultipleGap(d, n);
  }

  lemma NextDivMod(x: nat, n: nat)
    requires n > 0
    ensures (x + 1) / n == x / n + (if x % n == n - 1 then 1 else 0)
    ensures (x + 1) % n == if x % n == n - 1 then 0 else x % n + 1
  {
    assert x == (x / n) * n + x % n;
    if x % n == n - 1 {
      assert x + 1 == (x / n + 1) * n;
      DivModUnique(x + 1, n, x / n + 1, 0);
    } else {
      DivModUnique(x + 1, n, x / n, x % n + 1);
    }
  }

  lemma OneMoreHeight(perm: seq<nat>, n: nat, p: nat, length: nat)
    requires n > 0 && |perm| == n && length >= TURN * n
    ensures Served(perm, n, p, length + 1) == Served(perm, n, p, length) + if length % n == p then 1 else 0
  {
  }

  /** In an epoch of at least nine heights each, every position serves the floor or the
      ceiling of its even share, the first ones the ceiling. */
  lemma {:induction false} LongEpochFair(perm: seq<nat>, n: nat, p: nat, length: nat)
    requires n > 0 && IsPermutation(perm, n) && p < n && length >= 9 * n
    ensures Served(perm, n, p, length) == length / n + if p < length % n then 1 else 0
    decreases length
  {
    hide Served, PositionAt;
    if length == TURN * n {
      assert p in perm;
      var k :| 0 <= k < n && perm[k] == p;
      ShortEpochTurns(perm, n, k, length);
      DivModUnique(length, n, TURN, 0);
    } else {
      LongEpochFair(perm, n, p, length - 1);
      OneMoreHeight(perm, n, p, length - 1);
      NextDivMod(length - 1, n);
    }
  }

  // ---- Elections ----

  /** The slots that an election at the start of an epoch hands out. */
  ghost predicate Elected(ps: ProposerSelector, perm: nat -> seq<nat>) {
    && ps.committee != [] && ps.epochLength == EPOCH_LENGTH
    && IsPermutation(perm(|ps.committee|), |ps.committee|)
    && if Degenerate(|ps.committee|, ps.epochStart, ps.epochLength) then ps.slots == map[]
       else Filled(ps.slots, ps.committee, perm(|ps.committee|), ps.epochStart, ps.epochLength)
  }

  ghost predicate Seated(committee: seq<Validator>, a: Address) {
    exists v :: v in committee && v.address == a
  }

  class Elections {
    const vr: ValidatorRegistry
    /** `rand.Perm` with its fixed seed */
    const perm: nat -> seq<nat>
    var committee: seq<Validator>
    var proposerSelector: Option<ProposerSelector>

    /** Committee and slots always come from one and the same election. */
    ghost predicate Valid()
      reads this
    {
      match proposerSelector
      case None => committee == []
      case Some(ps) => Elected(ps, perm) && ps.committee == committee
    }

    constructor (vr: ValidatorRegistry, perm: nat -> seq<nat>)
      ensures Valid() && this.vr == vr && this.perm == perm
      ensures committee == [] && proposerSelector.None?
    {
      this.vr, this.perm := vr, perm;
      committee, proposerSelector := [], None;
    }

    function ProposerForBlock(h: Word): Option<Validator>
      reads this
    {
      if proposerSelector.Some? && h in proposerSelector.value.slots then Some(proposerSelector.value.slots[h])
      else None
    }

    /** Some participating validator has no seat. */
    method NewcomerWaiting() returns (b: bool)
      ensures b <==> exists a :: a in Participating(vr.entries) && !Seated(committee, a)
    {
      var seated: set<Address> := {};
      for i := 0 to |committee|
        invariant forall a :: a in seated <==> Seated(committee[..i], a)
      {
        assert committee[..i + 1] == committee[..i] + [committee[i]];
        seated := seated + {committee[i].address};
      }
      assert committee[..|committee|] == committee;
      var all := vr.GetAllValidators();
      for i := 0 to |all|
        invariant forall j :: 0 <= j < i ==> !(all[j].participating && all[j].address !in seated)
      {
        assert all[i] in all;
        if all[i].participating && all[i].address !in seated {
          assert all[i].address in Participating(vr.entries);
          return true;
        }
      }
      forall a | a in Participating(vr.entries) ensures a in seated {
        assert vr.entries[a] in all;
      }
      return false;
    }

    /** An election is due: none was held for this epoch, seats are free, or somebody waits. */
    ghost predicate ElectionDue(epochStart: Word)
      reads this, vr
    {
      || proposerSelector.None? || proposerSelector.value.epochStart != epochStart
      || |committee| < 30
      || exists a :: a in vr.entries && vr.entries[a].participating && !Seated(committee, a)
    }

    /** With somebody participating, the next height has a proposer, the member whose turn it
        is, exactly when it is not the first height of an epoch (and the epoch ends within 64
        bits), whether or not the call re-elects; and it re-elects exactly when that is due. */
    method ForceCommitteeAndProposer(height: Word)
      requires Valid() && forall n :: IsPermutation(perm(n), n)
      modifies this
      ensures Valid()
      ensures Participating(vr.entries) != {} ==>
                var next := ProposerForBlock(Plus(height, 1));
                && (next.Some? <==> (height + 1) % 270 != 0 && height / 270 * 270 + 270 < WORD)
                && (next.Some? ==>
                      && committee != []
                      && var position := PositionAt(perm(|committee|), |committee|, (height + 1) % 270);
                         position < |committee| && next.value == committee[position])
      ensures Participating(vr.entries) != {} && old(ElectionDue(height / 270 * 270)) ==>
                && IsCommittee(vr.entries, 30, committee) && Heaviest(vr.entries, committee)
                && proposerSelector.Some? && proposerSelector.value.epochStart == height / 270 * 270
      ensures !old(ElectionDue(height / 270 * 270)) ==>
                committee == old(committee) && proposerSelector == old(proposerSelector)
      ensures Participating(vr.entries) != {} && !IsCommittee(vr.entries, COMMITTEE_SIZE, committee) ==>
                && committee == old(committee)
                && forall a :: a in Participating(vr.entries) ==> Seated(committee, a)
      ensures Participating(vr.entries) == {} ==>
                committee == old(committee) && proposerSelector == old(proposerSelector)
    {
      var epochStart: Word := height / EPOCH_LENGTH * EPOCH_LENGTH;
      var newcomer := NewcomerWaiting();
      var needReElection :=
        || committee == []
        || proposerSelector.None? || proposerSelector.value.epochStart != epochStart
        || |committee| < COMMITTEE_SIZE
        || newcomer;
      if needReElection {
        var newCommittee := SelectCommittee(vr, COMMITTEE_SIZE);
        if newCommittee == [] {
          return;
        }
        committee := newCommittee;
        var ps := NewProposerSelectorWithRotation(newCommittee, epochStart, EPOCH_LENGTH, perm(|newCommittee|));
        proposerSelector := Some(ps);
      }
      SlotsOfEpoch(proposerSelector.value, perm, height);
    }
  }

  /** An election for the epoch of `height` gives the next height a proposer unless that
      height opens the next epoch. */
  lemma SlotsOfEpoch(ps: ProposerSelector, perm: nat -> seq<nat>, height: Word)
    requires Elected(ps, perm) && ps.epochStart == height / EPOCH_LENGTH * EPOCH_LENGTH
    ensures Plus(height, 1) in ps.slots <==> (height + 1) % EPOCH_LENGTH != 0 && ps.epochStart + EPOCH_LENGTH < WORD
    ensures Plus(height, 1) in ps.slots ==>
              var position := PositionAt(perm(|ps.committee|), |ps.committee|, (height + 1) % EPOCH_LENGTH);
              position < |ps.committee| && ps.slots[Plus(height, 1)] == ps.committee[position]
  {
    hide Wrap, IsPermutation, PositionAt;
    EpochOf(height);
    if ps.epochStart + EPOCH_LENGTH < WORD {
      WrapOfWord(height + 1);
    }
  }

  lemma EpochOf(height: Word)
    ensures var start := height / EPOCH_LENGTH * EPOCH_LENGTH;
            && start <= height < start + EPOCH_LENGTH
            && ((height + 1) % EPOCH_LENGTH != 0 <==> height + 1 < start + EPOCH_LENGTH)
            && (height + 1 < start + EPOCH_LENGTH ==> (height + 1) % EPOCH_LENGTH == height + 1 - start)
  {
  }
}
