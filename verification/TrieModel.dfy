/**
 The Merkle trie of merkle_trie.go as a value: what `Insert` builds, what `Get`
 reads, and what the root hash says about the contents.

 SHA3-256 (section 6.1 of FIPS 202) is an arbitrary function `sha`; every
 statement holds for all of them.
 */
module TrieModel {
  import opened Base

  /** A path of bits, most significant bit of the first byte first. */
  type Bits = seq<bool>

  type Sha = Bytes -> Digest

  /** A Go byte slice that may be nil. */
  type Slice = Option<Bytes>

  datatype Tree =
    | Empty
    | Node(hash: Digest, value: Slice, left: Tree, right: Tree)
  {
    function Child(bit: bool): Tree
      requires Node?
    {
      if bit then right else left
    }
  }

  /** The root that a new trie starts with. */
  const BLANK: Tree := Node(ZERO_DIGEST, None, Empty, Empty)

  /** The hash a parent sees: an absent child counts as 32 zero bytes. */
  function HashOf(t: Tree): Digest {
    match t
    case Empty => ZERO_DIGEST
    case Node(h, _, _, _) => h
  }

  /** Hashing a nil slice hashes no bytes. */
  function Content(v: Slice): Bytes {
    match v
    case None => []
    case Some(b) => b
  }

  /** A node whose child for `bit` is replaced and whose hash is recalculated. */
  function WithChild(sha: Sha, node: Tree, bit: bool, child: Tree): Tree
    requires node.Node?
  {
    var left := if bit then node.left else child;
    var right := if bit then child else node.right;
    Node(sha(HashOf(left) + HashOf(right)), node.value, left, right)
  }

  function InsertTree(sha: Sha, t: Tree, path: Bits, v: Slice): (r: Tree)
    ensures r.Node?
    decreases |path|
  {
    var node := if t.Empty? then BLANK else t;
    if path == [] then
      Node(sha(Content(v)), v, node.left, node.right)
    else
      WithChild(sha, node, path[0], InsertTree(sha, node.Child(path[0]), path[1..], v))
  }

  function Lookup(t: Tree, path: Bits): Slice
    decreases |path|
  {
    if t.Empty? then None
    else if path == [] then t.value
    else Lookup(t.Child(path[0]), path[1..])
  }

  /** Whatever the paths, also when one is a prefix of the other: an insertion is read
      back under its own path and seen under no other. */
  lemma {:induction false} LookupInsert(sha: Sha, t: Tree, p: Bits, v: Slice, q: Bits)
    ensures Lookup(InsertTree(sha, t, p, v), q) == if p == q then v else Lookup(t, q)
    decreases |p|
  {
    if p != [] && q != [] {
      var node := if t.Empty? then BLANK else t;
      assert p == [p[0]] + p[1..] && q == [q[0]] + q[1..];
      if p[0] == q[0] {
        LookupInsert(sha, node.Child(p[0]), p[1..], v, q[1..]);
      }
    }
  }

  /** A nil value and an empty one are told apart by lookup, but not by the root hash. */
  lemma {:induction false} NilHashesAsEmpty(sha: Sha, t: Tree, p: Bits)
    ensures HashOf(InsertTree(sha, t, p, None)) == HashOf(InsertTree(sha, t, p, Some([])))
    ensures Lookup(InsertTree(sha, t, p, None), p) == None
    ensures Lookup(InsertTree(sha, t, p, Some([])), p) == Some([])
    decreases |p|
  {
    LookupInsert(sha, t, p, None, p);
    LookupInsert(sha, t, p, Some([]), p);
    if p != [] {
      var node := if t.Empty? then BLANK else t;
      NilHashesAsEmpty(sha, node.Child(p[0]), p[1..]);
    }
  }

  // ---- Keys as bit paths ----

  /** Go's `b >> n`. */
  function ShiftRight(b: nat, n: nat): nat {
    if n == 0 then b else ShiftRight(b, n - 1) / 2
  }

  /** Bit `i` of a byte, counted from the most significant: `(b >> (7 - i)) & 1`. */
  function Bit(b: Byte, i: nat): bool
    requires i < 8
  {
    ShiftRight(b, 7 - i) % 2 == 1
  }

  /** The turns that `insert` and `get` take for a key, root first. */
  function PathOf(key: Bytes): (p: Bits)
    ensures |p| == 8 * |key|
  {
    seq(8 * |key|, i requires 0 <= i < 8 * |key| => Bit(key[i / 8], i % 8))
  }

  /** One step down the path of a key. */
  lemma PathStep(key: Bytes, depth: nat)
    requires depth < 8 * |key|
    ensures var path := PathOf(key)[depth..];
            path[0] == Bit(key[depth / 8], depth % 8) && path[1..] == PathOf(key)[depth + 1..]
  {
  }

  lemma {:induction false} SameShift(a: Byte, b: Byte, n: nat)
    requires n <= 8
    requires forall i: nat {:trigger Bit(a, i)} :: i < 8 ==> Bit(a, i) == Bit(b, i)
    ensures ShiftRight(a, n) == ShiftRight(b, n)
    decreases 8 - n
  {
    if n == 8 {
      ShiftedOut(a);
      ShiftedOut(b);
    } else {
      SameShift(a, b, n + 1);
      assert Bit(a, 7 - n) == Bit(b, 7 - n);
    }
  }

  lemma ShiftedOut(b: Byte)
    ensures ShiftRight(b, 8) == 0
  {
    assert ShiftRight(b, 1) < 128;
    assert ShiftRight(b, 2) < 64;
    assert ShiftRight(b, 3) < 32;
    assert ShiftRight(b, 4) < 16;
    assert ShiftRight(b, 5) < 8;
    assert ShiftRight(b, 6) < 4;
    assert ShiftRight(b, 7) < 2;
  }

  /** Different keys never share a path, whatever their lengths. */
  lemma PathInjective(j: Bytes, k: Bytes)
    requires PathOf(j) == PathOf(k)
    ensures j == k
  {
    assert |PathOf(j)| == |PathOf(k)|;
    forall n | 0 <= n < |j| ensures j[n] == k[n] {
      forall i: nat | i < 8 ensures Bit(j[n], i) == Bit(k[n], i) {
        assert (8 * n + i) / 8 == n && (8 * n + i) % 8 == i;
        assert PathOf(j)[8 * n + i] == PathOf(k)[8 * n + i];
      }
      SameShift(j[n], k[n], 0);
    }
  }

  /** The bytes of a key as one number, most significant byte first. */
  ghost function KeyNumber(key: Bytes): nat {
    if key == [] then 0 else 256 * KeyNumber(key[..|key| - 1]) + key[|key| - 1]
  }

  /** The turns of a path as binary digits, root first: 0 for left, 1 for right. */
  ghost function PathNumber(p: Bits): nat {
    if p == [] then 0 else 2 * PathNumber(p[..|p| - 1]) + if p[|p| - 1] then 1 else 0
  }

  /** Following the first `n` bits of a byte after a path. */
  lemma {:induction false} AppendBits(p: Bits, b: Byte, n: nat)
    requires n <= 8
    ensures PathNumber(p + BitsOf(b)[..n]) == Power2(n) * PathNumber(p) + ShiftRight(b, 8 - n)
  {
    hide PathNumber, ShiftRight;
    var q := p + BitsOf(b)[..n];
    if n == 0 {
      ShiftedOut(b);
      assert q == p;
    } else {
      AppendBits(p, b, n - 1);
      assert q == (p + BitsOf(b)[..n - 1]) + [Bit(b, n - 1)];
      OneMoreBit(p + BitsOf(b)[..n - 1], Bit(b, n - 1));
      NextShift(b, 8 - n);
    }
  }

  lemma OneMoreBit(p: Bits, bit: bool)
    ensures PathNumber(p + [bit]) == 2 * PathNumber(p) + if bit then 1 else 0
  {
    assert (p + [bit])[..|p|] == p;
  }

  lemma NextShift(b: Byte, n: nat)
    requires n < 8
    ensures ShiftRight(b, n) == 2 * ShiftRight(b, n + 1) + if Bit(b, 7 - n) then 1 else 0
  {
  }

  ghost function Power2(n: nat): nat {
    if n == 0 then 1 else 2 * Power2(n - 1)
  }

  ghost function BitsOf(b: Byte): Bits {
    seq(8, i requires 0 <= i < 8 => Bit(b, i))
  }

  lemma PathAppend(key: Bytes)
    requires key != []
    ensures PathOf(key) == PathOf(key[..|key| - 1]) + BitsOf(key[|key| - 1])
  {
    var p, q := PathOf(key), PathOf(key[..|key| - 1]) + BitsOf(key[|key| - 1]);
    forall i | 0 <= i < |p| ensures p[i] == q[i] {
      if i < 8 * (|key| - 1) {
        assert i / 8 < |key| - 1;
      } else {
        assert i / 8 == |key| - 1 && i % 8 == i - 8 * (|key| - 1);
      }
    }
  }

  /** The path of a key, read from the root down with left as 0 and right as 1, spells the
      key: smaller keys of one length lie further to the left. */
  lemma {:induction false} PathSpellsKey(key: Bytes)
    ensures PathNumber(PathOf(key)) == KeyNumber(key)
  {
    if key != [] {
      var init, last := key[..|key| - 1], key[|key| - 1];
      PathSpellsKey(init);
      PathAppend(key);
      AppendBits(PathOf(init), last, 8);
      assert BitsOf(last)[..8] == BitsOf(last);
      assert Power2(8) == 256 by { assert Power2(4) == 16; }
    }
  }

  // ---- The root hash as a function of the contents ----

  /** Contents addressed by path. */
  type PathMap = map<Bits, Bytes>

  /** The part of the contents that lies below the child for `bit`. */
  ghost function Below(m: PathMap, bit: bool): (r: PathMap)
    ensures forall p :: p in r <==> [bit] + p in m
    ensures forall p :: p in r ==> r[p] == m[[bit] + p]
  {
    var paths := set q | q in m && q != [] && q[0] == bit :: q[1..];
    assert forall q :: q in m && q != [] ==> q == [q[0]] + q[1..];
    assert forall p: Bits :: ([bit] + p)[1..] == p && ([bit] + p)[0] == bit;
    map p | p in paths :: m[[bit] + p]
  }

  /** No path of the contents continues another one. */
  ghost predicate PrefixFree(m: PathMap) {
    forall p, q :: p in m && q in m && p <= q ==> p == q
  }

  ghost predicate ShorterThan(m: PathMap, n: nat) {
    forall p :: p in m ==> |p| <= n
  }

  /** The Merkle root of the contents, defined on the contents alone: nothing hashes to
      zeros, a value to its own hash, everything else to the hash of its two halves.
      `n` only bounds the recursion. */
  ghost function MerkleRoot(sha: Sha, m: PathMap, n: nat): Digest
    requires ShorterThan(m, n)
    decreases n
  {
    if m == map[] then ZERO_DIGEST
    else if [] in m then sha(m[[]])
    else
      BelowShorter(m, n);
      sha(MerkleRoot(sha, Below(m, false), n - 1) + MerkleRoot(sha, Below(m, true), n - 1))
  }

  lemma BelowShorter(m: PathMap, n: nat)
    requires ShorterThan(m, n) && m != map[] && [] !in m
    ensures n > 0 && ShorterThan(Below(m, false), n - 1) && ShorterThan(Below(m, true), n - 1)
  {
    var p :| p in m;
    assert |p| > 0;
    forall b: bool, q | q in Below(m, b) ensures |q| <= n - 1 {
      assert |[b] + q| <= n;
    }
  }

  /** The tree holds exactly these contents. */
  ghost predicate Represents(t: Tree, m: PathMap) {
    forall p :: Lookup(t, p) == if p in m then Some(m[p]) else None
  }

  /** Every node is either a value or an inner node with something below it, and carries
      the hash that this calls for. */
  ghost predicate Sound(sha: Sha, t: Tree) {
    match t
    case Empty => true
    case Node(h, Some(v), l, r) => l.Empty? && r.Empty? && h == sha(v)
    case Node(h, None, l, r) =>
      (l.Node? || r.Node?) && Sound(sha, l) && Sound(sha, r) && h == sha(HashOf(l) + HashOf(r))
  }

  /** Sound, or untouched since it was created. */
  ghost predicate SoundRoot(sha: Sha, t: Tree) {
    t == BLANK || Sound(sha, t)
  }

  lemma BlankHoldsNothing(p: Bits)
    ensures Lookup(BLANK, p) == None
  {
    if p != [] {
      assert Lookup(BLANK, p) == Lookup(Empty, p[1..]);
    }
  }

  lemma RepresentsChild(t: Tree, m: PathMap, bit: bool)
    requires t.Node? && Represents(t, m)
    ensures Represents(t.Child(bit), Below(m, bit))
  {
    forall p ensures Lookup(t.Child(bit), p) == if p in Below(m, bit) then Some(Below(m, bit)[p]) else None {
      var q := [bit] + p;
      assert q[1..] == p;
      assert Lookup(t, q) == Lookup(t.Child(bit), p);
    }
  }

  /** A sound tree with a node in it holds something. */
  lemma {:induction false} SoundHolds(sha: Sha, t: Tree) returns (p: Bits)
    requires Sound(sha, t) && t.Node?
    ensures Lookup(t, p).Some?
  {
    if t.value.Some? {
      p := [];
    } else {
      var bit := t.right.Node?;
      var q := SoundHolds(sha, t.Child(bit));
      p := [bit] + q;
      assert p[1..] == q;
    }
  }

  lemma EmptyIffNothing(sha: Sha, t: Tree, m: PathMap)
    requires Sound(sha, t) && Represents(t, m)
    ensures t.Empty? <==> m == map[]
  {
    if t.Node? {
      var p := SoundHolds(sha, t);
      assert p in m;
    } else {
      forall p ensures p !in m { assert Lookup(t, p).None?; }
    }
  }

  lemma ValueAtTop(t: Tree, m: PathMap)
    requires t.Node? && Represents(t, m)
    ensures t.value == if [] in m then Some(m[[]]) else None
  {
    assert Lookup(t, []) == t.value;
  }

  /** A sound tree hashes to the Merkle root of its contents. */
  lemma {:induction false} SoundHash(sha: Sha, t: Tree, m: PathMap, n: nat)
    requires Sound(sha, t) && Represents(t, m) && ShorterThan(m, n)
    ensures HashOf(t) == MerkleRoot(sha, m, n)
    decreases t
  {
    hide Represents, Below, ShorterThan;
    EmptyIffNothing(sha, t, m);
    if t.Node? {
      ValueAtTop(t, m);
      if t.value.None? {
        BelowShorter(m, n);
        RepresentsChild(t, m, false);
        RepresentsChild(t, m, true);
        SoundHash(sha, t.left, Below(m, false), n - 1);
        SoundHash(sha, t.right, Below(m, true), n - 1);
      }
    }
  }

  lemma BelowPrefixFree(m: PathMap, bit: bool)
    requires PrefixFree(m)
    ensures PrefixFree(Below(m, bit))
  {
    forall p, q | p in Below(m, bit) && q in Below(m, bit) && p <= q ensures p == q {
      assert [bit] + p <= [bit] + q;
      assert ([bit] + p)[1..] == p && ([bit] + q)[1..] == q;
    }
  }

  /** Inserting a non-nil value keeps a tree sound as long as no path continues another. */
  lemma {:induction false} InsertSound(sha: Sha, t: Tree, m: PathMap, p: Bits, v: Bytes)
    requires SoundRoot(sha, t) && Represents(t, m)
    requires PrefixFree(m[p := v])
    ensures Sound(sha, InsertTree(sha, t, p, Some(v)))
    decreases |p|
  {
    var node := if t.Empty? then BLANK else t;
    assert Represents(node, m) by {
      if t.Empty? {
        forall q ensures Lookup(node, q) == Lookup(t, q) {
          BlankHoldsNothing(q);
        }
      }
    }
    if p == [] {
      SoundLeaf(sha, node, m, v);
    } else {
      var bit := p[0];
      assert Lookup(node, []) == node.value;
      assert [] !in m by { NotPrefixed(m, p, v); }
      RepresentsChild(node, m, bit);
      BelowUpdate(m, p, v);
      BelowPrefixFree(m[p := v], bit);
      InsertSound(sha, node.Child(bit), Below(m, bit), p[1..], v);
    }
  }

  /** Where a value may go without breaking prefix-freedom, there is nothing below. */
  lemma SoundLeaf(sha: Sha, node: Tree, m: PathMap, v: Bytes)
    requires node.Node? && SoundRoot(sha, node) && Represents(node, m) && PrefixFree(m[[] := v])
    ensures node.left.Empty? && node.right.Empty?
  {
    assert Lookup(node, []) == node.value;
    forall p | p in m ensures p == [] {
      assert p in m[[] := v] && [] in m[[] := v] && [] <= p;
    }
    if node != BLANK {
      var p := SoundHolds(sha, node);
      assert p in m;
    }
  }

  lemma NotPrefixed(m: PathMap, p: Bits, v: Bytes)
    requires p != [] && PrefixFree(m[p := v])
    ensures [] !in m
  {
    var m' := m[p := v];
    assert p in m' && [] <= p;
    assert [] in m ==> [] in m';
  }

  lemma BelowUpdate(m: PathMap, p: Bits, v: Bytes)
    requires p != []
    ensures Below(m[p := v], p[0]) == Below(m, p[0])[p[1..] := v]
  {
    hide Below;
    var x, y := Below(m[p := v], p[0]), Below(m, p[0])[p[1..] := v];
    forall q ensures (q in x <==> q in y) && (q in x ==> x[q] == y[q]) {
      assert [p[0]] + q == p <==> q == p[1..];
    }
  }

  // ---- Runs of insertions ----

  datatype Entry = Entry(path: Bits, value: Bytes)

  function InsertAll(sha: Sha, t: Tree, es: seq<Entry>): Tree {
    if es == [] then t
    else
      var last := es[|es| - 1];
      InsertTree(sha, InsertAll(sha, t, es[..|es| - 1]), last.path, Some(last.value))
  }

  /** The contents that a run of insertions leaves: the last value under each path. */
  ghost function FinalContents(es: seq<Entry>): PathMap {
    if es == [] then map[]
    else FinalContents(es[..|es| - 1])[es[|es| - 1].path := es[|es| - 1].value]
  }

  lemma {:induction false} InsertAllRepresents(sha: Sha, es: seq<Entry>)
    ensures Represents(InsertAll(sha, BLANK, es), FinalContents(es))
  {
    if es == [] {
      forall p ensures Lookup(BLANK, p) == None {
        BlankHoldsNothing(p);
      }
    } else {
      var last, init := es[|es| - 1], es[..|es| - 1];
      InsertAllRepresents(sha, init);
      forall p ensures Lookup(InsertAll(sha, BLANK, es), p)
                       == if p in FinalContents(es) then Some(FinalContents(es)[p]) else None {
        LookupInsert(sha, InsertAll(sha, BLANK, init), last.path, Some(last.value), p);
      }
    }
  }

  lemma {:induction false} InsertAllSound(sha: Sha, es: seq<Entry>)
    requires PrefixFree(FinalContents(es))
    ensures SoundRoot(sha, InsertAll(sha, BLANK, es))
  {
    if es != [] {
      var last, init := es[|es| - 1], es[..|es| - 1];
      assert PrefixFree(FinalContents(init)) by {
        forall p, q | p in FinalContents(init) && q in FinalContents(init) && p <= q ensures p == q {
          assert p in FinalContents(es) && q in FinalContents(es);
        }
      }
      InsertAllSound(sha, init);
      InsertAllRepresents(sha, init);
      InsertSound(sha, InsertAll(sha, BLANK, init), FinalContents(init), last.path, last.value);
    }
  }

  /** The root hash is the Merkle root of the final contents, whatever the order of the
      insertions and however often a key was overwritten, when no path continues another. */
  lemma {:induction false} RootIsCanonical(sha: Sha, es: seq<Entry>, n: nat)
    requires PrefixFree(FinalContents(es)) && ShorterThan(FinalContents(es), n)
    ensures HashOf(InsertAll(sha, BLANK, es)) == MerkleRoot(sha, FinalContents(es), n)
  {
    InsertAllSound(sha, es);
    InsertAllRepresents(sha, es);
    if InsertAll(sha, BLANK, es) == BLANK {
      BlankRoot(sha, FinalContents(es), n);
    } else {
      SoundHash(sha, InsertAll(sha, BLANK, es), FinalContents(es), n);
    }
  }

  lemma BlankRoot(sha: Sha, m: PathMap, n: nat)
    requires Represents(BLANK, m) && ShorterThan(m, n)
    ensures m == map[] && HashOf(BLANK) == MerkleRoot(sha, m, n)
  {
    forall p ensures p !in m {
      BlankHoldsNothing(p);
    }
  }
}
