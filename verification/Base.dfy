/**
 Vocabulary shared by every component: bytes, digests, addresses and the
 64-bit unsigned words of the Go code, whose additions wrap.
 */
module Base {

  datatype Option<+T> = None | Some(value: T)

  /** A byte; Go's `byte`. */
  type Byte = x: int | 0 <= x < 256

  type Bytes = seq<Byte>

  /** A 32-byte digest; Go's `Hash`. */
  type Digest = d: Bytes | |d| == 32 witness Zeros(32)

  /** A 20-byte account address. */
  type Address = a: Bytes | |a| == 20 witness Zeros(20)

  function Zeros(n: nat): Bytes {
    seq(n, _ => 0)
  }

  /** The value of an unset `Hash`. */
  const ZERO_DIGEST: Digest := Zeros(32)

  /** The number of values of a `uint64`. */
  const WORD: int := 0x1_0000_0000_0000_0000

  /** A `uint64`. Sums of words are plain integers until they are wrapped. */
  type Word = x: int | 0 <= x < WORD

  /** Reduction of an arithmetic result to a `uint64`. */
  function Wrap(x: int): Word {
    x % WORD
  }

  /** Go's `a + b` on `uint64`. */
  function Plus(a: Word, b: Word): Word {
    Wrap(a + b)
  }

  lemma WrapOfWord(x: Word)
    ensures Wrap(x) == x
  {
  }

  lemma WrapAbsorbs(x: int, y: int)
    ensures Wrap(Wrap(x) + y) == Wrap(x + y)
  {
  }
}

/** Finite sums over sequences and maps, independent of any enumeration order. */
module Sums {

  ghost function SumOver<T>(s: seq<T>, f: T -> int): int {
    if s == [] then 0 else f(s[0]) + SumOver(s[1..], f)
  }

  lemma SumOverHead<T>(s: seq<T>, f: T -> int)
    requires s != []
    ensures SumOver(s, f) == f(s[0]) + SumOver(s[1..], f)
  {
  }

  lemma {:induction false} SumOverAppend<T>(s: seq<T>, t: seq<T>, f: T -> int)
    ensures SumOver(s + t, f) == SumOver(s, f) + SumOver(t, f)
  {
    if s == [] {
      assert s + t == t;
    } else {
      SumOverAppend(s[1..], t, f);
      assert (s + t)[1..] == s[1..] + t;
    }
  }

  /** Removing one occurrence of an element that the sequence holds. */
  lemma SplitAt<T>(s: seq<T>, x: T) returns (i: nat, rest: seq<T>)
    requires x in multiset(s)
    ensures i < |s| && s[i] == x && rest == s[..i] + s[i + 1..]
    ensures multiset(rest) == multiset(s) - multiset{x}
  {
    i :| 0 <= i < |s| && s[i] == x;
    rest := s[..i] + s[i + 1..];
    assert s == s[..i] + [x] + s[i + 1..];
  }

  /** A sum depends only on which elements occur and how often. */
  lemma {:induction false} SumOverPermutation<T>(s: seq<T>, t: seq<T>, f: T -> int)
    requires multiset(s) == multiset(t)
    ensures SumOver(s, f) == SumOver(t, f)
  {
    if s == [] {
      assert |multiset(t)| == 0;
    } else {
      assert s == [s[0]] + s[1..];
      assert s[0] in multiset(s);
      var i, rest := SplitAt(t, s[0]);
      SumOverPermutation(s[1..], rest, f);
      SumOverAppend(t[..i], t[i + 1..], f);
      SumOverAppend(t[..i], t[i..], f);
      assert t == t[..i] + t[i..];
    }
  }

  ghost function SumMap<K, V>(m: map<K, V>, f: V -> int): int {
    if m == map[] then 0
    else
      var k :| k in m;
      f(m[k]) + SumMap(m - {k}, f)
  }

  lemma {:induction false} SumMapRemove<K, V>(m: map<K, V>, k: K, f: V -> int)
    requires k in m
    ensures SumMap(m, f) == f(m[k]) + SumMap(m - {k}, f)
    decreases |m|
  {
    var j :| j in m && SumMap(m, f) == f(m[j]) + SumMap(m - {j}, f);
    if j != k {
      SumMapRemove(m - {j}, k, f);
      SumMapRemove(m - {k}, j, f);
      assert m - {j} - {k} == m - {k} - {j};
    }
  }

  lemma SumMapUpdate<K, V>(m: map<K, V>, k: K, v: V, f: V -> int)
    ensures SumMap(m[k := v], f) == SumMap(m, f) - (if k in m then f(m[k]) else 0) + f(v)
  {
    SumMapRemove(m[k := v], k, f);
    assert m[k := v] - {k} == m - {k};
    if k in m {
      SumMapRemove(m, k, f);
    } else {
      assert m - {k} == m;
    }
  }

  /** Sums of non-negative terms are non-negative. */
  lemma {:induction false} SumMapNonNegative<K, V>(m: map<K, V>, f: V -> int)
    requires forall v :: f(v) >= 0
    ensures SumMap(m, f) >= 0
    decreases |m|
  {
    if m != map[] {
      var k :| k in m && SumMap(m, f) == f(m[k]) + SumMap(m - {k}, f);
      SumMapNonNegative(m - {k}, f);
    }
  }

  lemma SumMapTwo<K, V>(m: map<K, V>, j: K, k: K, f: V -> int)
    requires forall v :: f(v) >= 0
    requires j in m
    ensures f(m[j]) <= SumMap(m, f)
    ensures k in m && k != j ==> f(m[j]) + f(m[k]) <= SumMap(m, f)
  {
    SumMapRemove(m, j, f);
    SumMapNonNegative(m - {j}, f);
    if k in m && k != j {
      SumMapRemove(m - {j}, k, f);
      SumMapNonNegative(m - {j} - {k}, f);
    }
  }
}
