/** Committee selection of committee.go: the heaviest participating validators. */
module Committees {
  import opened Base
  import opened Ledger
  import opened Sorting
  import opened Validators

  function Weight(v: Validator): Word {
    Wrap(v.stake + v.delegated + v.reputation)
  }

  /** `bytes.Compare(a, b) < 0` */
  predicate LexLess(a: Bytes, b: Bytes) {
    if b == [] then false
    else if a == [] then true
    else if a[0] != b[0] then a[0] < b[0]
    else LexLess(a[1..], b[1..])
  }

  /** `v` ranks above `w`: heavier, or equally heavy with the smaller address. */
  predicate RanksAbove(v: Validator, w: Validator) {
    if Weight(v) == Weight(w) then LexLess(v.address, w.address) else Weight(v) > Weight(w)
  }

  lemma {:induction false} LexTransitive(a: Bytes, b: Bytes, c: Bytes)
    requires LexLess(a, b) && LexLess(b, c)
    ensures LexLess(a, c)
  {
    if a != [] && a[0] == b[0] == c[0] {
      LexTransitive(a[1..], b[1..], c[1..]);
    }
  }

  lemma {:induction false} LexTrichotomy(a: Bytes, b: Bytes)
    ensures LexLess(a, b) || LexLess(b, a) || a == b
    ensures !(LexLess(a, b) && LexLess(b, a)) && !LexLess(a, a)
    decreases |a|
  {
    if a != [] {
      LexTrichotomy(a[1..], a[1..]);
      if b != [] && a[0] == b[0] {
        LexTrichotomy(a[1..], b[1..]);
        assert a == [a[0]] + a[1..] && b == [b[0]] + b[1..];
      }
    }
  }

  lemma RankTrichotomy(v: Validator, w: Validator)
    ensures RanksAbove(v, w) || RanksAbove(w, v) || v.address == w.address
    ensures !(RanksAbove(v, w) && RanksAbove(w, v)) && !RanksAbove(v, v)
  {
    hide Wrap, LexLess;
    LexTrichotomy(v.address, w.address);
  }

  lemma RankIsOrder()
    ensures StrictWeakOrder(RanksAbove)
  {
    hide Wrap, LexLess;
    forall v, w ensures RanksAbove(v, w) ==> !RanksAbove(w, v) {
      RankTrichotomy(v, w);
    }
    forall u, v, w | !RanksAbove(v, u) && !RanksAbove(w, v) ensures !RanksAbove(w, u) {
      LexTrichotomy(u.address, v.address);
      LexTrichotomy(v.address, w.address);
      LexTrichotomy(u.address, w.address);
      if LexLess(u.address, v.address) && LexLess(v.address, w.address) {
        LexTransitive(u.address, v.address, w.address);
      }
    }
  }

  ghost function Participating(r: Registry): set<Address> {
    set a | a in r && r[a].participating
  }

  /** What a committee of up to `n` members has to be. */
  ghost predicate IsCommittee(r: Registry, n: nat, c: seq<Validator>) {
    && (forall i :: 0 <= i < |c| ==> c[i].address in Participating(r) && r[c[i].address] == c[i])
    && (forall i, j :: 0 <= i < j < |c| ==> RanksAbove(c[i], c[j]))
    && |c| == (if n < |Participating(r)| then n else |Participating(r)|)
    && (forall a, i :: a in Participating(r) && r[a] !in c && 0 <= i < |c| ==> RanksAbove(c[i], r[a]))
  }

  lemma {:induction false} SameUpTo(r: Registry, n: nat, c: seq<Validator>, d: seq<Validator>, i: nat)
    requires IsCommittee(r, n, c) && IsCommittee(r, n, d) && i <= |c|
    ensures c[..i] == d[..i]
  {
    if i > 0 {
      SameUpTo(r, n, c, d, i - 1);
      NotAhead(r, n, c, d, i - 1);
      NotAhead(r, n, d, c, i - 1);
      RankTrichotomy(c[i - 1], d[i - 1]);
      assert c[..i] == c[..i - 1] + [c[i - 1]] && d[..i] == d[..i - 1] + [d[i - 1]];
    }
  }

  /** Two committees that agree so far: neither may pick a higher-ranking next member. */
  lemma NotAhead(r: Registry, n: nat, c: seq<Validator>, d: seq<Validator>, i: nat)
    requires IsCommittee(r, n, c) && IsCommittee(r, n, d) && i < |c| && c[..i] == d[..i]
    ensures !RanksAbove(c[i], d[i])
  {
    hide RanksAbove;
    RankTrichotomy(c[i], d[i]);
    RankTrichotomy(c[i], c[i]);
    forall k | 0 <= k < i ensures d[k] == c[k] {
      assert c[..i][k] == d[..i][k];
    }
    if c[i] in d {
      var k :| 0 <= k < |d| && d[k] == c[i];
    } else {
      assert r[c[i].address] !in d;
    }
  }

  /** There is only one: the committee does not depend on the order in which the registry
      lists its validators, nor on how the sort breaks anything. */
  lemma CommitteeUnique(r: Registry, n: nat, c: seq<Validator>, d: seq<Validator>)
    requires IsCommittee(r, n, c) && IsCommittee(r, n, d)
    ensures c == d
  {
    SameUpTo(r, n, c, d, |c|);
    assert c[..|c|] == c && d[..|c|] == d;
  }

  lemma CommitteeDistinct(r: Registry, n: nat, c: seq<Validator>, i: nat, j: nat)
    requires IsCommittee(r, n, c) && i < j < |c|
    ensures c[i].address != c[j].address
  {
    RankTrichotomy(c[i], c[j]);
    RankTrichotomy(c[i], c[i]);
  }

  /** Addresses compare by the first byte in which they differ. */
  ghost predicate SmallerAddress(a: Address, b: Address) {
    exists k :: 0 <= k < 20 && a[..k] == b[..k] && a[k] < b[k]
  }

  lemma {:induction false} FirstDifference(a: Bytes, b: Bytes) returns (k: nat)
    requires |a| == |b| && LexLess(a, b)
    ensures k < |a| && a[..k] == b[..k] && a[k] < b[k]
  {
    if a[0] != b[0] {
      k := 0;
    } else {
      k := FirstDifference(a[1..], b[1..]);
      k := k + 1;
      assert a[..k] == [a[0]] + a[1..][..k - 1] && b[..k] == [b[0]] + b[1..][..k - 1];
    }
  }

  /** `v` has more stake, delegations and reputation together, counted modulo 2^64 as the
      code counts, or as much and the smaller address. */
  ghost predicate Outweighs(v: Validator, w: Validator) {
    var x, y := (v.stake + v.delegated + v.reputation) % WORD, (w.stake + w.delegated + w.reputation) % WORD;
    x > y || (x == y && SmallerAddress(v.address, w.address))
  }

  lemma RankMeans(v: Validator, w: Validator)
    requires RanksAbove(v, w)
    ensures Outweighs(v, w)
  {
    hide LexLess, SmallerAddress;
    if Weight(v) == Weight(w) {
      var k := FirstDifference(v.address, w.address);
      assert SmallerAddress(v.address, w.address) by { Differ(v.address, w.address, k); }
    }
  }

  lemma Differ(a: Address, b: Address, k: nat)
    requires k < 20 && a[..k] == b[..k] && a[k] < b[k]
    ensures SmallerAddress(a, b)
  {
  }

  /** Members are participating validators, each outweighs the members after it and every
      participating validator that has no seat. */
  ghost predicate Heaviest(r: Registry, c: seq<Validator>) {
    && (forall v :: v in c ==> v.participating && v.address in r && r[v.address] == v)
    && (forall i, j :: 0 <= i < j < |c| ==> Outweighs(c[i], c[j]))
    && (forall a, i :: a in r && r[a].participating && r[a] !in c && 0 <= i < |c| ==> Outweighs(c[i], r[a]))
  }

  lemma CommitteeHeaviest(r: Registry, n: nat, c: seq<Validator>)
    requires IsCommittee(r, n, c)
    ensures Heaviest(r, c)
  {
    hide RanksAbove, Outweighs;
    forall i, j | 0 <= i < j < |c| ensures Outweighs(c[i], c[j]) {
      RankMeans(c[i], c[j]);
    }
    forall a, i | a in r && r[a].participating && r[a] !in c && 0 <= i < |c| ensures Outweighs(c[i], r[a]) {
      assert a in Participating(r);
      RankMeans(c[i], r[a]);
    }
  }

  /** While no validator's total exceeds 64 bits, members come by descending totals, and
      nobody left out has a greater total than a member. */
  lemma CommitteeByTotals(r: Registry, n: nat, c: seq<Validator>)
    requires IsCommittee(r, n, c)
    requires forall a :: a in r && r[a].participating ==> r[a].stake + r[a].delegated + r[a].reputation < WORD
    ensures forall i, j :: 0 <= i < j < |c| ==>
              c[i].stake + c[i].delegated + c[i].reputation >= c[j].stake + c[j].delegated + c[j].reputation
    ensures forall a, i :: a in r && r[a].participating && r[a] !in c && 0 <= i < |c| ==>
              c[i].stake + c[i].delegated + c[i].reputation >= r[a].stake + r[a].delegated + r[a].reputation
  {
    hide RanksAbove, Outweighs, IsCommittee;
    CommitteeHeaviest(r, n, c);
    forall i | 0 <= i < |c|
      ensures c[i].stake + c[i].delegated + c[i].reputation < WORD
    {
      assert c[i] in c;
    }
    forall i, j | 0 <= i < j < |c|
      ensures c[i].stake + c[i].delegated + c[i].reputation >= c[j].stake + c[j].delegated + c[j].reputation
    {
      TotalsCompare(c[i], c[j]);
    }
    forall a, i | a in r && r[a].participating && r[a] !in c && 0 <= i < |c|
      ensures c[i].stake + c[i].delegated + c[i].reputation >= r[a].stake + r[a].delegated + r[a].reputation
    {
      TotalsCompare(c[i], r[a]);
    }
  }

  lemma TotalsCompare(v: Validator, w: Validator)
    requires Outweighs(v, w)
    requires v.stake + v.delegated + v.reputation < WORD && w.stake + w.delegated + w.reputation < WORD
    ensures v.stake + v.delegated + v.reputation >= w.stake + w.delegated + w.reputation
  {
    hide SmallerAddress;
  }

  function AddressOf(v: Validator): Address { v.address }

  /** The participating validators, each once. */
  ghost predicate ListsParticipating(vs: seq<Validator>, r: Registry) {
    && (forall v :: v in vs <==> v.address in Participating(r) && r[v.address] == v)
    && DistinctBy(vs, AddressOf)
  }

  lemma {:induction false} ListedCount(vs: seq<Validator>, s: set<Address>)
    requires DistinctBy(vs, AddressOf)
    requires forall a :: a in s <==> exists v :: v in vs && v.address == a
    ensures |vs| == |s|
    decreases |vs|
  {
    if vs == [] {
      assert s == {};
    } else {
      var v, rest := vs[0], vs[1..];
      assert v in vs && vs == [v] + rest;
      forall i, j | 0 <= i < j < |rest| ensures AddressOf(rest[i]) != AddressOf(rest[j]) {
        assert AddressOf(vs[i + 1]) != AddressOf(vs[j + 1]);
      }
      forall i | 0 <= i < |rest| ensures rest[i].address != v.address {
        assert AddressOf(vs[0]) != AddressOf(vs[i + 1]);
      }
      ListedCount(rest, s - {v.address});
    }
  }

  /** The first members of the ranked list are the committee. */
  lemma TopOfRanking(r: Registry, vs: seq<Validator>, n: nat)
    requires ListsParticipating(vs, r) && SortedBy(vs, RanksAbove)
    ensures IsCommittee(r, n, vs[..if n < |vs| then n else |vs|])
  {
    hide RanksAbove;
    forall a ensures a in Participating(r) <==> exists v :: v in vs && v.address == a {
      if a in Participating(r) {
        assert r[a] in vs;
      }
    }
    ListedCount(vs, Participating(r));
    forall i, j | 0 <= i < j < |vs| ensures RanksAbove(vs[i], vs[j]) {
      RankTrichotomy(vs[i], vs[j]);
      assert AddressOf(vs[i]) != AddressOf(vs[j]);
    }
    var k := if n < |vs| then n else |vs|;
    forall i | 0 <= i < k ensures vs[i] in vs && vs[i] in vs[..k] {
      assert vs[..k][i] == vs[i];
    }
    forall a, i | a in Participating(r) && r[a] !in vs[..k] && 0 <= i < k ensures RanksAbove(vs[..k][i], r[a]) {
      assert r[a] in vs;
      var j :| 0 <= j < |vs| && vs[j] == r[a];
      assert j >= k;
    }
  }

  method SelectCommittee(vr: ValidatorRegistry, n: nat) returns (committee: seq<Validator>)
    ensures IsCommittee(vr.entries, n, committee) && Heaviest(vr.entries, committee)
  {
    hide RanksAbove, IsCommittee, Heaviest;
    var validators := vr.GetAllValidators();
    var participating := [];
    for i := 0 to |validators|
      invariant forall v :: v in participating <==> v in validators[..i] && v.participating
      invariant DistinctBy(participating, AddressOf)
    {
      var v := validators[i];
      assert validators[..i + 1] == validators[..i] + [v];
      if v.participating {
        forall j | 0 <= j < |participating| ensures AddressOf(participating[j]) != v.address {
          assert participating[j] in participating;
        }
        participating := participating + [v];
      }
    }
    assert validators[..|validators|] == validators;
    RankIsOrder();
    var members := Sort(participating, RanksAbove);
    PermutationDistinct(participating, members, AddressOf);
    TopOfRanking(vr.entries, members, n);
    committee := [];
    for i := 0 to if n < |members| then n else |members|
      invariant committee == members[..i]
    {
      committee := committee + [members[i]];
    }
    CommitteeHeaviest(vr.entries, n, committee);
  }
}
