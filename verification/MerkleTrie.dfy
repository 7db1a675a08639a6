/**
 merkle_trie.go in its own form: nodes on the heap that `insert` updates in place, and
 a shadow map that `All` lists. Each node carries, as ghost state, the tree it stands for.
 */
module MerkleTries {
  import opened Base
  import opened TrieModel

  class TrieNode {
    var hash: Digest
    var value: Slice
    var left: TrieNode?
    var right: TrieNode?
    ghost var tree: Tree
    ghost var repr: set<TrieNode>

    ghost predicate Valid()
      reads this, repr
      decreases repr
    {
      && this in repr
      && (left != null ==> left in repr && left.repr <= repr - {this} && left.Valid())
      && (right != null ==> right in repr && right.repr <= repr - {this} && right.Valid())
      && (left != null && right != null ==> left.repr !! right.repr)
      && tree == Node(hash, value, TreeOf(left), TreeOf(right))
    }

    constructor ()
      ensures Valid() && fresh(repr) && tree == BLANK
    {
      hash, value, left, right := ZERO_DIGEST, None, null, null;
      tree, repr := BLANK, {this};
    }

    function Child(bit: bool): TrieNode?
      reads this
    {
      if bit then right else left
    }

    method SetValue(value: Slice, hash: Digest)
      requires Valid()
      modifies this
      ensures Valid() && repr == old(repr)
      ensures tree == Node(hash, value, old(tree.left), old(tree.right))
    {
      this.value, this.hash := value, hash;
      tree := Node(hash, value, tree.left, tree.right);
    }

    /** Hangs `child` below this node and recalculates the hash from both children. */
    method SetChild(sha: Sha, bit: bool, child: TrieNode)
      requires child.Valid() && this !in child.repr
      requires var other := Child(!bit);
               other != null ==> other.Valid() && this !in other.repr && other.repr !! child.repr
      modifies this
      ensures Valid() && repr == {this} + child.repr + old(ReprOf(Child(!bit)))
      ensures old(tree.Node? && tree.value == value && tree.Child(!bit) == TreeOf(Child(!bit))) ==>
                tree == WithChild(sha, old(tree), bit, child.tree)
    {
      repr := {this} + child.repr + ReprOf(Child(!bit));
      if bit {
        right := child;
      } else {
        left := child;
      }
      hash := RecalculateHash(sha, this);
      tree := Node(hash, value, TreeOf(left), TreeOf(right));
    }
  }

  /** The hash of a node's two children, an absent one counting as zeros. */
  function RecalculateHash(sha: Sha, node: TrieNode): Digest
    reads node, node.left, node.right
  {
    var leftHash := if node.left != null then node.left.hash else ZERO_DIGEST;
    var rightHash := if node.right != null then node.right.hash else ZERO_DIGEST;
    sha(leftHash + rightHash)
  }

  ghost function TreeOf(node: TrieNode?): Tree
    reads if node == null then {} else {node}
  {
    if node == null then Empty else node.tree
  }

  ghost function ReprOf(node: TrieNode?): set<TrieNode>
    reads if node == null then {} else {node}
  {
    if node == null then {} else node.repr
  }

  /** A look through the tree and a look into the map agree on every key, and the tree
      holds values on paths of keys of the map only. */
  ghost predicate Mirrors(t: Tree, kv: map<Bytes, Slice>) {
    && (forall k :: Lookup(t, PathOf(k)) == if k in kv then kv[k] else None)
    && (forall p :: Lookup(t, p).Some? ==> exists k :: k in kv && PathOf(k) == p)
  }

  lemma MirrorsInsert(sha: Sha, t: Tree, kv: map<Bytes, Slice>, key: Bytes, value: Slice)
    requires Mirrors(t, kv)
    ensures Mirrors(InsertTree(sha, t, PathOf(key), value), kv[key := value])
  {
    hide PathOf, InsertTree, Lookup;
    var t', kv' := InsertTree(sha, t, PathOf(key), value), kv[key := value];
    forall k ensures Lookup(t', PathOf(k)) == if k in kv' then kv'[k] else None {
      LookupInsert(sha, t, PathOf(key), value, PathOf(k));
      if PathOf(k) == PathOf(key) {
        PathInjective(k, key);
      }
    }
    forall p | Lookup(t', p).Some? ensures exists k :: k in kv' && PathOf(k) == p {
      LookupInsert(sha, t, PathOf(key), value, p);
      if p == PathOf(key) {
        assert key in kv';
      } else {
        var k :| k in kv && PathOf(k) == p;
        assert k in kv';
      }
    }
  }

  /** The contents of the shadow map by path, nil values left out. */
  ghost function PathsOf(kv: map<Bytes, Slice>): (m: PathMap)
    ensures forall p :: p in m <==> exists k :: k in kv && kv[k].Some? && PathOf(k) == p
    ensures forall k :: k in kv && kv[k].Some? ==> PathOf(k) in m && m[PathOf(k)] == kv[k].value
  {
    assert forall j, k :: PathOf(j) == PathOf(k) ==> j == k by {
      forall j, k | PathOf(j) == PathOf(k) ensures j == k { PathInjective(j, k); }
    }
    map k | k in kv && kv[k].Some? :: PathOf(k) := kv[k].value
  }

  lemma {:induction false} MirrorsRepresents(t: Tree, kv: map<Bytes, Slice>)
    requires Mirrors(t, kv)
    ensures Represents(t, PathsOf(kv))
  {
    hide PathOf, Lookup, PathsOf;
    var m := PathsOf(kv);
    forall p ensures Lookup(t, p) == if p in m then Some(m[p]) else None {
      assert Lookup(t, p).Some? ==> p in m by {
        if Lookup(t, p).Some? {
          var k :| k in kv && PathOf(k) == p;
          assert Lookup(t, PathOf(k)) == kv[k];
        }
      }
      if p in m {
        var k :| k in kv && kv[k].Some? && PathOf(k) == p;
        assert Lookup(t, PathOf(k)) == kv[k];
      }
    }
  }

  class MerkleTrie {
    const sha: Sha
    var root: TrieNode
    var kvMap: map<Bytes, Slice>

    /** The nodes hold what the shadow map holds, and nothing off the paths of its keys. */
    ghost predicate Valid()
      reads this, root, root.repr
    {
      root.Valid() && Mirrors(root.tree, kvMap)
    }

    constructor (sha: Sha)
      ensures Valid() && fresh(root) && fresh(root.repr)
      ensures this.sha == sha && kvMap == map[] && root.tree == BLANK
    {
      this.sha := sha;
      root := new TrieNode();
      kvMap := map[];
      new;
      forall p ensures Lookup(BLANK, p) == None {
        BlankHoldsNothing(p);
      }
    }

    /** `Insert` refines insertion into the tree, and map update on the shadow map. */
    method Insert(key: Bytes, value: Slice)
      requires Valid()
      modifies this, root.repr
      ensures Valid() && fresh(root.repr - old(root.repr)) && root == old(root)
      ensures kvMap == old(kvMap)[key := value]
      ensures root.tree == InsertTree(sha, old(root.tree), PathOf(key), value)
    {
      ghost var before := root.tree;
      assert PathOf(key)[0..] == PathOf(key);
      root := InsertAt(root, key, value, 0);
      kvMap := kvMap[key := value];
      MirrorsInsert(sha, before, old(kvMap), key, value);
    }

    method InsertAt(node: TrieNode?, key: Bytes, value: Slice, depth: nat) returns (r: TrieNode)
      requires depth <= 8 * |key|
      requires node != null ==> node.Valid()
      modifies ReprOf(node)
      ensures r.Valid() && fresh(r.repr - old(ReprOf(node)))
      ensures node != null ==> r == node
      ensures r.tree == InsertTree(sha, old(TreeOf(node)), PathOf(key)[depth..], value)
      decreases 8 * |key| - depth, 1
    {
      if node == null {
        r := new TrieNode();
      } else {
        r := node;
      }
      InsertBelow(r, key, value, depth);
    }

    method InsertBelow(node: TrieNode, key: Bytes, value: Slice, depth: nat)
      requires depth <= 8 * |key|
      requires node.Valid()
      modifies node.repr
      ensures node.Valid() && fresh(node.repr - old(node.repr))
      ensures node.tree == InsertTree(sha, old(node.tree), PathOf(key)[depth..], value)
      decreases 8 * |key| - depth, 0
    {
      hide PathOf, WithChild;
      if depth == 8 * |key| {
        node.SetValue(value, sha(Content(value)));
      } else {
        PathStep(key, depth);
        var bit := Bit(key[depth / 8], depth % 8);
        var child := InsertAt(node.Child(bit), key, value, depth + 1);
        node.SetChild(sha, bit, child);
      }
    }

    /** The value last inserted under exactly this key; nil values count as absent. */
    function Get(key: Bytes): (r: Slice)
      requires Valid()
      reads this, root, root.repr
      ensures r == if key in kvMap then kvMap[key] else None
    {
      assert PathOf(key)[0..] == PathOf(key);
      var node := Find(root, key, 0);
      if node == null then None else node.value
    }

    function Find(node: TrieNode?, key: Bytes, depth: nat): (r: TrieNode?)
      requires depth <= 8 * |key|
      requires node != null ==> node.Valid()
      reads node, if node == null then {} else node.repr
      ensures r != null ==> r in ReprOf(node)
      ensures (if r == null then None else r.value) == Lookup(TreeOf(node), PathOf(key)[depth..])
      decreases 8 * |key| - depth
    {
      if node == null || depth == 8 * |key| then node
      else
        PathStep(key, depth);
        Find(if Bit(key[depth / 8], depth % 8) then node.right else node.left, key, depth + 1)
    }

    /** Every pair of the shadow map, once, in some order. */
    method All() returns (pairs: seq<(Bytes, Slice)>)
      ensures forall p :: p in pairs <==> p.0 in kvMap && kvMap[p.0] == p.1
      ensures forall i, j :: 0 <= i < j < |pairs| ==> pairs[i].0 != pairs[j].0
    {
      pairs := [];
      var rest := kvMap.Keys;
      while rest != {}
        invariant rest <= kvMap.Keys
        invariant forall p :: p in pairs <==> p.0 in kvMap.Keys - rest && kvMap[p.0] == p.1
        invariant forall i, j :: 0 <= i < j < |pairs| ==> pairs[i].0 != pairs[j].0
        decreases |rest|
      {
        var key :| key in rest;
        forall i | 0 <= i < |pairs| ensures pairs[i].0 != key { assert pairs[i] in pairs; }
        rest := rest - {key};
        pairs := pairs + [(key, kvMap[key])];
      }
    }
  }
}
