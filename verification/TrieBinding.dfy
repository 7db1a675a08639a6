/**
 What a root hash commits to. Equal roots over different contents are turned,
 constructively, into a break of the hash function; and keys that continue one
 another are shown to make the root depend on the order of insertion.
 */
module TrieBinding {
  import opened Base
  import opened TrieModel

  /** Evidence against the hash function. */
  datatype Break = Collision(x: Bytes, y: Bytes) | ZeroPreimage(x: Bytes)

  predicate Breaks(sha: Sha, b: Break) {
    match b
    case Collision(x, y) => x != y && sha(x) == sha(y)
    case ZeroPreimage(x) => sha(x) == ZERO_DIGEST
  }

  /** `x` was hashed to label some node of the tree: a node is labelled with the hash of
      its value or of the labels of its two children. */
  ghost predicate HashedIn(sha: Sha, t: Tree, x: Bytes) {
    && t.Node?
    && ((t.hash == sha(x) && (t.value == Some(x) || x == Labels(t)))
        || HashedIn(sha, t.left, x) || HashedIn(sha, t.right, x))
  }

  /** The break is made of inputs that were hashed to build these very trees: a collision
      between the two, or a zero hash in one of them. */
  ghost predicate FoundIn(sha: Sha, s: Tree, t: Tree, b: Break) {
    && Breaks(sha, b)
    && match b
       case Collision(x, y) => HashedIn(sha, s, x) && HashedIn(sha, t, y)
       case ZeroPreimage(x) => HashedIn(sha, s, x) || HashedIn(sha, t, x)
  }

  /** The labels of the two children, as a node hashes them. */
  function Labels(t: Tree): Bytes
    requires t.Node?
  {
    HashOf(t.left) + HashOf(t.right)
  }

  /** Every value sits exactly `n` bits below the top. */
  ghost predicate Uniform(t: Tree, n: nat) {
    t.Empty? || if n == 0 then t.value.Some? else t.value.None? && Uniform(t.left, n - 1) && Uniform(t.right, n - 1)
  }

  /** The bytes that were hashed to label a node. */
  function Preimage(t: Tree): Bytes
    requires t.Node?
  {
    if t.value.Some? then t.value.value else Labels(t)
  }

  /** Two different trees under one hash: descend to where the hash function breaks. */
  function FindBreak(sha: Sha, s: Tree, t: Tree, ghost n: nat): (b: Break)
    requires Sound(sha, s) && Sound(sha, t) && Uniform(s, n) && Uniform(t, n)
    requires s != t && HashOf(s) == HashOf(t)
    ensures FoundIn(sha, s, t, b)
  {
    if s.Empty? then ZeroPreimage(Preimage(t))
    else if t.Empty? then ZeroPreimage(Preimage(s))
    else if Preimage(s) != Preimage(t) then Collision(Preimage(s), Preimage(t))
    else
      SamePreimage(sha, s, t, n);
      if s.left != t.left then FindBreak(sha, s.left, t.left, n - 1)
      else FindBreak(sha, s.right, t.right, n - 1)
  }

  lemma SamePreimage(sha: Sha, s: Tree, t: Tree, n: nat)
    requires Sound(sha, s) && Sound(sha, t) && Uniform(s, n) && Uniform(t, n)
    requires s.Node? && t.Node? && s != t && Preimage(s) == Preimage(t)
    ensures n > 0 && HashOf(s.left) == HashOf(t.left) && HashOf(s.right) == HashOf(t.right)
    ensures s.left != t.left || s.right != t.right
  {
    if n > 0 {
      assert HashOf(s.left) == Preimage(s)[..32] == Preimage(t)[..32] == HashOf(t.left);
      assert HashOf(s.right) == Preimage(s)[32..] == Preimage(t)[32..] == HashOf(t.right);
    }
  }

  lemma {:induction false} UniformFromContents(sha: Sha, t: Tree, m: PathMap, n: nat)
    requires Sound(sha, t) && Represents(t, m)
    requires forall p :: p in m ==> |p| == n
    ensures Uniform(t, n)
    decreases t
  {
    if t.Node? {
      assert Lookup(t, []) == t.value;
      if t.value.None? {
        var p := SoundHolds(sha, t);
        assert p in m;
        forall bit: bool ensures Uniform(t.Child(bit), n - 1) {
          RepresentsChild(t, m, bit);
          forall q | q in Below(m, bit) ensures |q| == n - 1 {
            assert |[bit] + q| == n;
          }
          UniformFromContents(sha, t.Child(bit), Below(m, bit), n - 1);
        }
        assert Uniform(t.Child(false), n - 1) && Uniform(t.Child(true), n - 1);
      }
    }
  }

  lemma FixedLengthPrefixFree(m: PathMap, n: nat)
    requires forall p :: p in m ==> |p| == n
    ensures PrefixFree(m) && ShorterThan(m, n)
  {
  }

  lemma {:induction false} FinalContentsLength(es: seq<Entry>, n: nat)
    requires forall e :: e in es ==> |e.path| == n
    ensures forall p :: p in FinalContents(es) ==> |p| == n
  {
    if es != [] {
      FinalContentsLength(es[..|es| - 1], n);
      assert es[|es| - 1] in es;
    }
  }

  /** An untouched root, read as no tree at all. */
  lemma Rooted(sha: Sha, t: Tree, m: PathMap, n: nat) returns (u: Tree)
    requires SoundRoot(sha, t) && Represents(t, m)
    requires forall p :: p in m ==> |p| == n
    ensures Sound(sha, u) && Uniform(u, n) && Represents(u, m) && HashOf(u) == HashOf(t)
    ensures u == t || u == Empty
  {
    u := t;
    if t == BLANK {
      BlankRoot(sha, m, n);
      u := Empty;
    }
    UniformFromContents(sha, u, m, n);
  }

  /** Two tries over keys of one length, with equal roots and different contents: among the
      inputs that were hashed to build them is a break of the hash function. */
  lemma {:induction false} RootBinds(sha: Sha, s: Tree, m: PathMap, t: Tree, m': PathMap, n: nat) returns (b: Break)
    requires SoundRoot(sha, s) && Represents(s, m) && SoundRoot(sha, t) && Represents(t, m')
    requires forall p :: p in m || p in m' ==> |p| == n
    requires m != m' && HashOf(s) == HashOf(t)
    ensures FoundIn(sha, s, t, b)
  {
    var u := Rooted(sha, s, m, n);
    var v := Rooted(sha, t, m', n);
    if u == v {
      SameContents(u, m, m');
    }
    b := FindBreak(sha, u, v, n);
  }

  /** In particular two runs of insertions. */
  lemma {:induction false} RootBindsRuns(sha: Sha, es: seq<Entry>, fs: seq<Entry>, n: nat) returns (b: Break)
    requires forall e :: e in es + fs ==> |e.path| == n
    requires FinalContents(es) != FinalContents(fs)
    requires HashOf(InsertAll(sha, BLANK, es)) == HashOf(InsertAll(sha, BLANK, fs))
    ensures FoundIn(sha, InsertAll(sha, BLANK, es), InsertAll(sha, BLANK, fs), b)
  {
    RunSound(sha, es, n);
    RunSound(sha, fs, n);
    b := RootBinds(sha, InsertAll(sha, BLANK, es), FinalContents(es), InsertAll(sha, BLANK, fs), FinalContents(fs), n);
  }

  lemma RunSound(sha: Sha, es: seq<Entry>, n: nat)
    requires forall e :: e in es ==> |e.path| == n
    ensures SoundRoot(sha, InsertAll(sha, BLANK, es)) && Represents(InsertAll(sha, BLANK, es), FinalContents(es))
    ensures forall p :: p in FinalContents(es) ==> |p| == n
  {
    FinalContentsLength(es, n);
    FixedLengthPrefixFree(FinalContents(es), n);
    InsertAllSound(sha, es);
    InsertAllRepresents(sha, es);
  }

  lemma SameContents(t: Tree, m: PathMap, m': PathMap)
    requires Represents(t, m) && Represents(t, m')
    ensures m == m'
  {
    forall p ensures p in m <==> p in m' {
      assert Lookup(t, p) == Lookup(t, p);
    }
    forall p | p in m ensures m[p] == m'[p] {
      assert Lookup(t, p) == Some(m[p]);
    }
  }

  /** The subtree that a path leads to. */
  function Subtree(t: Tree, p: Bits): Tree
    decreases |p|
  {
    if t.Empty? || p == [] then t else Subtree(t.Child(p[0]), p[1..])
  }

  /** Two values inserted one after the other. */
  function InsertTwo(sha: Sha, t: Tree, p: Bits, v: Bytes, q: Bits, w: Bytes): (r: Tree)
    ensures r.Node?
  {
    InsertTree(sha, InsertTree(sha, t, p, Some(v)), q, Some(w))
  }

  /** What the shorter of two paths leads to once both are inserted, in either order: the
      same value above the same children. Only the label tells the orders apart. */
  lemma {:induction false} PrefixNodes(sha: Sha, t: Tree, p: Bits, v: Bytes, q: Bits, w: Bytes)
    requires p < q
    ensures var x := Subtree(InsertTwo(sha, t, p, v, q, w), p);
            var y := Subtree(InsertTwo(sha, t, q, w, p, v), p);
            && x.Node? && y.Node?
            && x == Node(sha(Labels(x)), Some(v), x.left, x.right)
            && y == x.(hash := sha(v))
    decreases |p|
  {
    if p != [] {
      var node := if t.Empty? then BLANK else t;
      PrefixNodes(sha, node.Child(p[0]), p[1..], v, q[1..], w);
    }
  }

  /** The labels that then lie below the shorter path. */
  function LabelsBelow(sha: Sha, t: Tree, p: Bits, v: Bytes, q: Bits, w: Bytes): Bytes
    requires p < q
  {
    PrefixNodes(sha, t, p, v, q, w);
    Labels(Subtree(InsertTwo(sha, t, p, v, q, w), p))
  }

  /** Going down one bit in both orders. */
  lemma InsertTwoStep(sha: Sha, t: Tree, p: Bits, v: Bytes, q: Bits, w: Bytes)
    requires p != [] && q != [] && p[0] == q[0]
    ensures var node := if t.Empty? then BLANK else t;
            InsertTwo(sha, t, p, v, q, w) ==
            WithChild(sha, node, p[0], InsertTwo(sha, node.Child(p[0]), p[1..], v, q[1..], w))
  {
  }

  /** When one key continues another, the two insertion orders leave the same contents, yet
      their roots agree only through a collision between inputs hashed for the two trees.
      The one exception is a value equal to the two labels below it. */
  lemma {:induction false} PrefixOrderMatters(sha: Sha, t: Tree, p: Bits, v: Bytes, q: Bits, w: Bytes)
    returns (b: Break)
    requires p < q && v != LabelsBelow(sha, t, p, v, q, w)
    requires HashOf(InsertTwo(sha, t, p, v, q, w)) == HashOf(InsertTwo(sha, t, q, w, p, v))
    ensures b.Collision? && FoundIn(sha, InsertTwo(sha, t, p, v, q, w), InsertTwo(sha, t, q, w, p, v), b)
    decreases |p|
  {
    hide InsertTwo;
    var pq, qp := InsertTwo(sha, t, p, v, q, w), InsertTwo(sha, t, q, w, p, v);
    if p == [] {
      PrefixNodes(sha, t, p, v, q, w);
      b := Collision(Labels(pq), v);
    } else {
      InsertTwoStep(sha, t, p, v, q, w);
      InsertTwoStep(sha, t, q, w, p, v);
      var x, y := Labels(pq), Labels(qp);
      if x != y {
        b := Collision(x, y);
      } else {
        assert x[..32] == y[..32] && x[32..] == y[32..];
        var node := if t.Empty? then BLANK else t;
        b := PrefixOrderMatters(sha, node.Child(p[0]), p[1..], v, q[1..], w);
      }
    }
  }

  /** In that exceptional case the two orders build one and the same tree. */
  lemma {:induction false} PrefixOrderAgrees(sha: Sha, t: Tree, p: Bits, v: Bytes, q: Bits, w: Bytes)
    requires p < q && v == LabelsBelow(sha, t, p, v, q, w)
    ensures InsertTwo(sha, t, p, v, q, w) == InsertTwo(sha, t, q, w, p, v)
    decreases |p|
  {
    hide InsertTwo;
    if p == [] {
      PrefixNodes(sha, t, p, v, q, w);
    } else {
      var node := if t.Empty? then BLANK else t;
      InsertTwoStep(sha, t, p, v, q, w);
      InsertTwoStep(sha, t, q, w, p, v);
      PrefixOrderAgrees(sha, node.Child(p[0]), p[1..], v, q[1..], w);
    }
  }

  /** The contents themselves do not care about that order. */
  lemma PrefixOrderSameContents(sha: Sha, t: Tree, p: Bits, v: Bytes, q: Bits, w: Bytes, r: Bits)
    requires p != q
    ensures Lookup(InsertTree(sha, InsertTree(sha, t, p, Some(v)), q, Some(w)), r)
         == Lookup(InsertTree(sha, InsertTree(sha, t, q, Some(w)), p, Some(v)), r)
  {
    LookupInsert(sha, t, p, Some(v), r);
    LookupInsert(sha, t, q, Some(w), r);
    LookupInsert(sha, InsertTree(sha, t, p, Some(v)), q, Some(w), r);
    LookupInsert(sha, InsertTree(sha, t, q, Some(w)), p, Some(v), r);
  }
}
