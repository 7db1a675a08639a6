/** Fork choice of fork_choice.go: the block hash with the heaviest latest votes. */
module ForkChoices {
  import opened Base
  import opened Sums
  import opened Ledger
  import opened Validators
  import opened Committees

  type Votes = map<Address, Digest>

  /** The full weight of a validator, before any wrap-around. */
  function Power(v: Validator): nat {
    v.stake + v.delegated + v.reputation
  }

  /** What a validator contributes to `h`, and to the vote as a whole. */
  function VoteFor(votes: Votes, h: Digest): Validator -> int {
    (v: Validator) => if v.address in votes && votes[v.address] == h then Power(v) else 0
  }

  function AnyVote(votes: Votes): Validator -> int {
    (v: Validator) => if v.address in votes then Power(v) else 0
  }

  /** The total weight of the latest votes for `h`. */
  ghost function Tally(r: Registry, votes: Votes, h: Digest): int {
    SumMap(r, VoteFor(votes, h))
  }

  ghost function TotalVote(r: Registry, votes: Votes): int {
    SumMap(r, AnyVote(votes))
  }

  lemma NonEmptyListing(vs: seq<Validator>, r: Registry)
    requires Enumerates(vs, r)
    ensures vs == [] <==> r == map[]
  {
    if vs != [] {
      assert vs[0] in vs;
    }
    if r != map[] {
      var a :| a in r;
      assert r[a] in vs;
    }
  }

  /** Summing over a listing of the registry, in whatever order, is summing over the registry. */
  lemma {:induction false} ListingSum(vs: seq<Validator>, r: Registry, f: Validator -> int)
    requires Enumerates(vs, r)
    ensures SumOver(vs, f) == SumMap(r, f)
    decreases |vs|
  {
    NonEmptyListing(vs, r);
    if vs != [] {
      var v, rest := vs[0], vs[1..];
      assert v in vs && vs == [v] + rest;
      var r' := r - {v.address};
      forall u ensures u in rest <==> u.address in r' && r'[u.address] == u {
        assert u in vs <==> u == v || u in rest;
        if u in rest {
          var i :| 0 <= i < |rest| && rest[i] == u;
          assert vs[0].address != vs[i + 1].address;
        }
      }
      ListingSum(rest, r', f);
      SumMapRemove(r, v.address, f);
    }
  }

  lemma {:induction false} SumMapLeq<K, V>(m: map<K, V>, f: V -> int, g: V -> int)
    requires forall v :: f(v) <= g(v)
    ensures SumMap(m, f) <= SumMap(m, g)
    decreases |m|
  {
    if m != map[] {
      var k :| k in m;
      SumMapRemove(m, k, f);
      SumMapRemove(m, k, g);
      SumMapLeq(m - {k}, f, g);
    }
  }

  lemma {:induction false} SumMapPlus<K, V>(m: map<K, V>, f: V -> int, g: V -> int, s: V -> int)
    requires forall v :: s(v) == f(v) + g(v)
    ensures SumMap(m, s) == SumMap(m, f) + SumMap(m, g)
    decreases |m|
  {
    if m != map[] {
      var k :| k in m;
      SumMapRemove(m, k, f);
      SumMapRemove(m, k, g);
      SumMapRemove(m, k, s);
      SumMapPlus(m - {k}, f, g, s);
    }
  }

  /** The votes for two different hashes are different votes. */
  lemma TalliesDisjoint(r: Registry, votes: Votes, g: Digest, h: Digest)
    requires g != h
    ensures 0 <= Tally(r, votes, g) && 0 <= Tally(r, votes, h)
    ensures Tally(r, votes, g) + Tally(r, votes, h) <= TotalVote(r, votes)
  {
    var both := (v: Validator) => VoteFor(votes, g)(v) + VoteFor(votes, h)(v);
    SumMapPlus(r, VoteFor(votes, g), VoteFor(votes, h), both);
    SumMapLeq(r, both, AnyVote(votes));
    SumMapNonNegative(r, VoteFor(votes, g));
    SumMapNonNegative(r, VoteFor(votes, h));
  }

  lemma TallyBounds(r: Registry, votes: Votes, h: Digest)
    ensures 0 <= Tally(r, votes, h) <= TotalVote(r, votes)
  {
    SumMapNonNegative(r, VoteFor(votes, h));
    SumMapLeq(r, VoteFor(votes, h), AnyVote(votes));
  }

  class ParticipationTracker {
    var votes: Votes

    constructor ()
      ensures votes == map[]
    {
      votes := map[];
    }

    /** The latest vote replaces the one before; other validators keep theirs. */
    method RecordVote(h: Digest, v: Validator)
      modifies this
      ensures votes == old(votes)[v.address := h]
    {
      votes := votes[v.address := h];
    }

    function LatestVote(a: Address): (h: Option<Digest>)
      reads this
      ensures h.Some? <==> a in votes
    {
      if a in votes then Some(votes[a]) else None
    }
  }

  method CountVotes(vr: ValidatorRegistry, tracker: ParticipationTracker) returns (weights: map<Digest, Word>)
    ensures forall h :: (if h in weights then weights[h] else 0) == Wrap(Tally(vr.entries, tracker.votes, h))
  {
    hide Wrap;
    var validators := vr.GetAllValidators();
    weights := map[];
    WrapOfWord(0);
    for i := 0 to |validators|
      invariant forall h: Digest ::
        (if h in weights then weights[h] else 0) == Wrap(SumOver(validators[..i], VoteFor(tracker.votes, h)))
    {
      var v := validators[i];
      var vote := tracker.LatestVote(v.address);
      ghost var before := weights;
      if vote.Some? {
        var sum := if vote.value in weights then weights[vote.value] else 0;
        weights := weights[vote.value := Plus(sum, Weight(v))];
      }
      forall h: Digest
        ensures (if h in weights then weights[h] else 0)
             == Wrap(SumOver(validators[..i + 1], VoteFor(tracker.votes, h)))
      {
        OneMoreVote(validators, i, tracker.votes, h);
      }
    }
    assert validators[..|validators|] == validators;
    forall h: Digest ensures SumOver(validators, VoteFor(tracker.votes, h)) == Tally(vr.entries, tracker.votes, h) {
      ListingSum(validators, vr.entries, VoteFor(tracker.votes, h));
    }
  }

  lemma OneMoreVote(vs: seq<Validator>, i: nat, votes: Votes, h: Digest)
    requires i < |vs|
    ensures var v := vs[i];
            var before := SumOver(vs[..i], VoteFor(votes, h));
            Wrap(SumOver(vs[..i + 1], VoteFor(votes, h))) ==
            if v.address in votes && votes[v.address] == h then Plus(Wrap(before), Weight(v)) else Wrap(before)
  {
    hide Wrap;
    var f := VoteFor(votes, h);
    assert vs[..i + 1] == vs[..i] + [vs[i]];
    SumOverAppend(vs[..i], [vs[i]], f);
    SumOverHead([vs[i]], f);
    var before := SumOver(vs[..i], f);
    WrapAbsorbs(before, Weight(vs[i]));
    WrapAbsorbs(Power(vs[i]), before);
    assert Wrap(before + Weight(vs[i])) == Wrap(before + Power(vs[i]));
  }

  /** The head carries the greatest tally modulo 2^64, and is the zero hash if all of them are
      zero. Unless a tally exceeds 64 bits these are the tallies themselves, and then a hash
      with a strict majority of the voting weight is always the one returned. Any order of
      iteration will do. */
  method SelectHead(vr: ValidatorRegistry, tracker: ParticipationTracker) returns (head: Digest)
    ensures forall h :: Wrap(Tally(vr.entries, tracker.votes, h)) <= Wrap(Tally(vr.entries, tracker.votes, head))
    ensures Wrap(Tally(vr.entries, tracker.votes, head)) == 0 ==> head == ZERO_DIGEST
    ensures (forall h :: Tally(vr.entries, tracker.votes, h) < WORD) ==>
              && (forall h :: Tally(vr.entries, tracker.votes, h) <= Tally(vr.entries, tracker.votes, head))
              && (forall h ::
                    2 * Tally(vr.entries, tracker.votes, h) > TotalVote(vr.entries, tracker.votes) ==> head == h)
              && (Tally(vr.entries, tracker.votes, head) == 0 ==> head == ZERO_DIGEST)
  {
    hide Wrap, Tally, TotalVote;
    var weights := CountVotes(vr, tracker);
    head := ZERO_DIGEST;
    var maxWeight: Word := 0;
    var rest := weights.Keys;
    while rest != {}
      invariant rest <= weights.Keys
      invariant forall h :: h in weights.Keys - rest ==> weights[h] <= maxWeight
      invariant if maxWeight == 0 then head == ZERO_DIGEST else head in weights && weights[head] == maxWeight
      decreases |rest|
    {
      var h :| h in rest;
      rest := rest - {h};
      if weights[h] > maxWeight {
        maxWeight := weights[h];
        head := h;
      }
    }
    if forall h :: Tally(vr.entries, tracker.votes, h) < WORD {
      forall h: Digest
        ensures Tally(vr.entries, tracker.votes, h) == if h in weights then weights[h] else 0
      {
        TallyBounds(vr.entries, tracker.votes, h);
        WrapOfWord(Tally(vr.entries, tracker.votes, h));
      }
      assert forall h :: Tally(vr.entries, tracker.votes, h) <= Tally(vr.entries, tracker.votes, head);
      forall h: Digest | 2 * Tally(vr.entries, tracker.votes, h) > TotalVote(vr.entries, tracker.votes)
        ensures head == h
      {
        MajorityWins(vr.entries, tracker.votes, head, h);
      }
    }
  }

  /** A hash with a strict majority of the voting weight is the only one that can come out. */
  lemma MajorityWins(r: Registry, votes: Votes, head: Digest, h: Digest)
    requires forall g :: Tally(r, votes, g) <= Tally(r, votes, head)
    requires 2 * Tally(r, votes, h) > TotalVote(r, votes)
    ensures head == h
  {
    hide Tally, TotalVote;
    assert Tally(r, votes, h) <= Tally(r, votes, head);
    if head != h {
      TalliesDisjoint(r, votes, head, h);
    }
  }
}
