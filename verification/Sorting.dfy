/** Go's `sort.Slice`: some rearrangement that the given `less` does not contradict. */
module Sorting {

  /** What `sort.Slice` asks of its comparison. */
  ghost predicate StrictWeakOrder<T(!new)>(less: (T, T) -> bool) {
    && (forall x, y :: less(x, y) ==> !less(y, x))
    && (forall x, y, z :: !less(y, x) && !less(z, y) ==> !less(z, x))
  }

  ghost predicate SortedBy<T>(s: seq<T>, less: (T, T) -> bool) {
    forall i, j :: 0 <= i < j < |s| ==> !less(s[j], s[i])
  }

  ghost predicate DistinctBy<T(!new), K(!new)>(s: seq<T>, key: T -> K) {
    forall i, j :: 0 <= i < j < |s| ==> key(s[i]) != key(s[j])
  }

  method Sort<T(!new)>(s: seq<T>, less: (T, T) -> bool) returns (t: seq<T>)
    requires StrictWeakOrder(less)
    ensures multiset(t) == multiset(s) && SortedBy(t, less)
  {
    t := [];
    for n := 0 to |s|
      invariant multiset(t) == multiset(s[..n]) && SortedBy(t, less)
    {
      var i := |t|;
      while i > 0 && less(s[n], t[i - 1])
        invariant 0 <= i <= |t|
        invariant forall j :: i <= j < |t| ==> less(s[n], t[j])
      {
        i := i - 1;
      }
      InsertSorted(t, i, s[n], less);
      InsertMultiset(t, i, s[n]);
      assert s[..n + 1] == s[..n] + [s[n]];
      t := t[..i] + [s[n]] + t[i..];
    }
    assert s[..|s|] == s;
  }

  lemma InsertMultiset<T>(t: seq<T>, i: nat, x: T)
    requires i <= |t|
    ensures multiset(t[..i] + [x] + t[i..]) == multiset(t) + multiset{x}
  {
    assert t == t[..i] + t[i..];
  }

  lemma InsertSorted<T(!new)>(t: seq<T>, i: nat, x: T, less: (T, T) -> bool)
    requires StrictWeakOrder(less) && SortedBy(t, less) && i <= |t|
    requires forall j :: i <= j < |t| ==> less(x, t[j])
    requires i == 0 || !less(x, t[i - 1])
    ensures SortedBy(t[..i] + [x] + t[i..], less)
  {
    var u := t[..i] + [x] + t[i..];
    forall j, k | 0 <= j < k < |u| ensures !less(u[k], u[j]) {
      if k == i && j < i - 1 {
        assert !less(t[i - 1], t[j]) && !less(x, t[i - 1]);
      }
    }
  }

  /** A rearrangement holds the same elements, and keeps their keys distinct. */
  lemma PermutationDistinct<T(!new), K(!new)>(s: seq<T>, t: seq<T>, key: T -> K)
    requires multiset(s) == multiset(t) && DistinctBy(s, key)
    ensures |s| == |t| && (forall x :: x in s <==> x in t) && DistinctBy(t, key)
  {
    assert |s| == |multiset(s)| && |t| == |multiset(t)|;
    assert forall x :: x in s <==> x in multiset(s);
    assert forall x :: x in t <==> x in multiset(t);
    forall i, j | 0 <= i < j < |t| ensures key(t[i]) != key(t[j]) {
      assert t == t[..i] + [t[i]] + t[i + 1..j] + [t[j]] + t[j + 1..];
      if t[i] == t[j] {
        assert multiset(t)[t[i]] >= 2;
        OnceOnly(s, key, t[i]);
      } else {
        assert t[i] in s && t[j] in s;
      }
    }
  }

  lemma OnceOnly<T(!new), K(!new)>(s: seq<T>, key: T -> K, x: T)
    requires DistinctBy(s, key)
    ensures multiset(s)[x] <= 1
  {
    if x in s {
      var i :| 0 <= i < |s| && s[i] == x;
      assert s == s[..i] + [x] + s[i + 1..];
      assert x !in s[..i] && x !in s[i + 1..];
    }
  }
}
