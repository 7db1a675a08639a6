/**
 state.go, validator_registry.go and the block execution of blockchain.go in their own
 form: objects updated in place. Each method is proved to compute the matching function
 of Ledger, and the root hash of the trie to be a function of the accounts alone.
 */
module Chain {
  import opened Base
  import opened TrieModel
  import opened TrieBinding
  import opened MerkleTries
  import opened Validators
  import OrderIndependence
  import L = Ledger

  /** JSON for accounts: some encoding that decoding undoes. */
  datatype Codec = Codec(encode: L.Account -> Bytes, decode: Bytes -> Option<L.Account>) {
    ghost predicate Lawful() {
      forall acc :: decode(encode(acc)) == Some(acc)
    }
  }

  /** The key-value pairs that stand for some accounts. */
  ghost function Encoded(json: Codec, m: L.Accounts): map<Bytes, Slice> {
    map a | a in m :: Some(json.encode(m[a]))
  }

  /** The root hash that the accounts call for. */
  ghost function StateRoot(sha: Sha, json: Codec, m: L.Accounts): Digest {
    EncodedPaths(json, m);
    MerkleRoot(sha, PathsOf(Encoded(json, m)), 160)
  }

  lemma EncodedPaths(json: Codec, m: L.Accounts)
    ensures PrefixFree(PathsOf(Encoded(json, m))) && ShorterThan(PathsOf(Encoded(json, m)), 160)
  {
    EncodedLengths(json, m);
    FixedLengthPrefixFree(PathsOf(Encoded(json, m)), 160);
  }

  lemma EncodedLengths(json: Codec, m: L.Accounts)
    ensures forall p :: p in PathsOf(Encoded(json, m)) ==> |p| == 160
  {
    forall p | p in PathsOf(Encoded(json, m)) ensures |p| == 160 {
      var k :| k in Encoded(json, m) && PathOf(k) == p;
      assert |k| == 20;
    }
  }

  lemma EncodedPut(json: Codec, m: L.Accounts, acc: L.Account)
    ensures Encoded(json, L.PutAccount(m, acc)) == Encoded(json, m)[acc.address := Some(json.encode(acc))]
    ensures PathsOf(Encoded(json, L.PutAccount(m, acc))) ==
            PathsOf(Encoded(json, m))[PathOf(acc.address) := json.encode(acc)]
  {
    var kv, kv' := Encoded(json, m), Encoded(json, L.PutAccount(m, acc));
    assert kv' == kv[acc.address := Some(json.encode(acc))];
    PathsOfUpdate(kv, acc.address, json.encode(acc));
  }

  lemma PathsOfUpdate(kv: map<Bytes, Slice>, key: Bytes, value: Bytes)
    requires key in kv ==> kv[key].Some?
    ensures PathsOf(kv[key := Some(value)]) == PathsOf(kv)[PathOf(key) := value]
  {
    hide PathOf, PathsOf;
    var kv' := kv[key := Some(value)];
    var x, y := PathsOf(kv'), PathsOf(kv)[PathOf(key) := value];
    forall p ensures p in x <==> p in y {
      assert key in kv' && kv'[key].Some?;
      if p in PathsOf(kv) {
        var k :| k in kv && kv[k].Some? && PathOf(k) == p;
        assert k in kv' && kv'[k].Some?;
      }
    }
    forall p | p in x ensures x[p] == y[p] {
      var k :| k in kv' && kv'[k].Some? && PathOf(k) == p;
      if k != key && PathOf(k) == PathOf(key) {
        PathInjective(k, key);
      }
    }
  }

  /** Putting an account keeps a trie that stands for accounts sound. */
  lemma PutSound(sha: Sha, json: Codec, t: Tree, m: L.Accounts, acc: L.Account)
    requires SoundRoot(sha, t) && Mirrors(t, Encoded(json, m))
    ensures Encoded(json, L.PutAccount(m, acc)) == Encoded(json, m)[acc.address := Some(json.encode(acc))]
    ensures SoundRoot(sha, InsertTree(sha, t, PathOf(acc.address), Some(json.encode(acc))))
  {
    hide InsertTree, PathOf, PathsOf, Encoded, Mirrors;
    EncodedPut(json, m, acc);
    EncodedPaths(json, L.PutAccount(m, acc));
    MirrorsRepresents(t, Encoded(json, m));
    InsertSound(sha, t, PathsOf(Encoded(json, m)), PathOf(acc.address), json.encode(acc));
  }

  class State {
    const sha: Sha
    const json: Codec
    const trie: MerkleTrie
    ghost var accounts: L.Accounts

    ghost predicate Valid()
      reads this, trie, trie.root, trie.root.repr
    {
      && json.Lawful()
      && trie.sha == sha
      && trie.Valid()
      && trie.kvMap == Encoded(json, accounts)
      && SoundRoot(sha, trie.root.tree)
    }

    constructor (sha: Sha, json: Codec)
      requires json.Lawful()
      ensures Valid() && fresh(trie) && fresh(trie.root.repr)
      ensures this.sha == sha && this.json == json && accounts == map[]
    {
      this.sha, this.json := sha, json;
      trie := new MerkleTrie(sha);
      accounts := map[];
    }

    /** The root hash depends on nothing but the accounts. */
    function RootHash(): (h: Digest)
      requires Valid()
      reads this, trie, trie.root, trie.root.repr
      ensures h == StateRoot(sha, json, accounts)
    {
      RootHashLemma();
      trie.root.hash
    }

    lemma RootHashLemma()
      requires Valid()
      ensures trie.root.hash == StateRoot(sha, json, accounts)
    {
      var m := PathsOf(trie.kvMap);
      EncodedPaths(json, accounts);
      MirrorsRepresents(trie.root.tree, trie.kvMap);
      if trie.root.tree == BLANK {
        BlankRoot(sha, m, 160);
      } else {
        SoundHash(sha, trie.root.tree, m, 160);
      }
    }

    /** Reading through trie and JSON finds the account last put under the address. */
    function GetAccount(addr: Address): (acc: L.Account)
      requires Valid()
      reads this, trie, trie.root, trie.root.repr
      ensures acc == L.GetAccount(accounts, addr)
    {
      var data := trie.Get(addr);
      if data.None? then L.Account(addr, 0, 0) else json.decode(data.value).value
    }

    method PutAccount(acc: L.Account)
      requires Valid()
      modifies this, trie, trie.root.repr
      ensures Valid() && fresh(trie.root.repr - old(trie.root.repr))
      ensures accounts == L.PutAccount(old(accounts), acc)
    {
      hide InsertTree, PathOf, Mirrors, Encoded, SoundRoot, L.PutAccount;
      PutSound(sha, json, trie.root.tree, accounts, acc);
      trie.Insert(acc.address, Some(json.encode(acc)));
      accounts := L.PutAccount(accounts, acc);
    }

    /** Checks first, then the recipient, then the sender. */
    method ApplyTransaction(tx: L.Tx) returns (error: Option<L.Error>)
      requires Valid()
      modifies this, trie, trie.root.repr
      ensures Valid() && fresh(trie.root.repr - old(trie.root.repr))
      ensures error == L.CheckTransaction(old(accounts), tx)
      ensures accounts == if error.None? then L.MoveFunds(old(accounts), tx) else old(accounts)
    {
      hide L.PutAccount, Plus, Valid;
      var sender := GetAccount(tx.from);
      if Plus(sender.nonce, 1) != tx.nonce {
        return Some(L.InvalidNonce);
      }
      if Plus(tx.value, tx.fee) > sender.balance {
        return Some(L.InsufficientBalance);
      }
      match tx.kind {
        case Participation =>
        case RegisterValidator =>
          if tx.value == 0 { return Some(L.ZeroStake); }
        case Delegate =>
          if tx.value == 0 { return Some(L.ZeroDelegation); }
        case Transfer =>
        case Unknown(_) =>
          return Some(L.UnknownType);
      }
      sender := sender.(balance := sender.balance - Plus(tx.value, tx.fee), nonce := Plus(sender.nonce, 1));
      if tx.kind.Transfer? {
        var recipient := GetAccount(tx.to);
        PutAccount(recipient.(balance := Plus(recipient.balance, tx.value)));
      }
      PutAccount(sender);
      error := None;
    }

    method ApplyBlock(txs: seq<L.Tx>) returns (error: Option<L.Error>)
      requires Valid()
      modifies this, trie, trie.root.repr
      ensures Valid() && fresh(trie.root.repr - old(trie.root.repr))
      ensures error.None? <==> L.AllApply(old(accounts), txs)
      ensures accounts == L.AccountsAfter(old(accounts), txs)
    {
      hide L.MoveFunds, L.CheckTransaction;
      assert txs[0..] == txs;
      for i := 0 to |txs|
        invariant Valid() && fresh(trie.root.repr - old(trie.root.repr))
        invariant L.AllApply(old(accounts), txs) <==> L.AllApply(accounts, txs[i..])
        invariant L.AccountsAfter(old(accounts), txs) == L.AccountsAfter(accounts, txs[i..])
      {
        assert txs[i..][1..] == txs[i + 1..];
        error := ApplyTransaction(txs[i]);
        if error.Some? {
          return;
        }
      }
      error := None;
    }

    /** Every account once, in some order. */
    method ExportSnapshot() returns (snapshot: seq<L.Account>)
      requires Valid()
      ensures Lists(snapshot, accounts)
    {
      var pairs := trie.All();
      snapshot := [];
      for i := 0 to |pairs|
        invariant |snapshot| == i
        invariant forall j :: 0 <= j < i ==> pairs[j].0 in accounts && snapshot[j] == accounts[pairs[j].0]
      {
        assert pairs[i] in pairs;
        snapshot := snapshot + [json.decode(pairs[i].1.value).value];
      }
      forall acc: L.Account | acc.address in accounts && accounts[acc.address] == acc ensures acc in snapshot {
        assert (acc.address, trie.kvMap[acc.address]) in pairs;
        var j :| 0 <= j < |pairs| && pairs[j] == (acc.address, trie.kvMap[acc.address]);
        assert snapshot[j] == acc;
      }
    }

    method ImportSnapshot(snapshot: seq<L.Account>)
      requires Valid()
      modifies this, trie, trie.root.repr
      ensures Valid() && fresh(trie.root.repr - old(trie.root.repr))
      ensures accounts == Imported(old(accounts), snapshot)
    {
      hide Valid, L.PutAccount;
      for i := 0 to |snapshot|
        invariant Valid() && fresh(trie.root.repr - old(trie.root.repr))
        invariant accounts == Imported(old(accounts), snapshot[..i])
      {
        assert snapshot[..i + 1][..i] == snapshot[..i];
        PutAccount(snapshot[i]);
      }
      assert snapshot[..|snapshot|] == snapshot;
    }
  }

  /** `snapshot` lists exactly the accounts of `m`, each once. */
  ghost predicate Lists(snapshot: seq<L.Account>, m: L.Accounts) {
    && (forall acc :: acc in snapshot <==> acc.address in m && m[acc.address] == acc)
    && (forall i, j :: 0 <= i < j < |snapshot| ==> snapshot[i].address != snapshot[j].address)
  }

  ghost function Imported(m: L.Accounts, snapshot: seq<L.Account>): L.Accounts {
    if snapshot == [] then m
    else L.PutAccount(Imported(m, snapshot[..|snapshot| - 1]), snapshot[|snapshot| - 1])
  }

  lemma {:induction false} ImportedAt(m: L.Accounts, snapshot: seq<L.Account>, final: L.Accounts, a: Address)
    requires forall acc :: acc in snapshot ==> acc.address in final && final[acc.address] == acc
    ensures a in Imported(m, snapshot) <==> a in m || exists acc :: acc in snapshot && acc.address == a
    ensures a in Imported(m, snapshot) ==>
              Imported(m, snapshot)[a] == if exists acc :: acc in snapshot && acc.address == a then final[a] else m[a]
  {
    if snapshot != [] {
      var init, last := snapshot[..|snapshot| - 1], snapshot[|snapshot| - 1];
      assert last in snapshot;
      assert forall acc :: acc in snapshot <==> acc in init || acc == last by {
        assert snapshot == init + [last];
      }
      ImportedAt(m, init, final, a);
    }
  }

  /** Whatever was there and however often an address is listed, the last listing counts. */
  lemma {:induction false} ImportedLast(m: L.Accounts, snapshot: seq<L.Account>, i: nat)
    requires i < |snapshot| && forall j :: i < j < |snapshot| ==> snapshot[j].address != snapshot[i].address
    ensures snapshot[i].address in Imported(m, snapshot)
    ensures Imported(m, snapshot)[snapshot[i].address] == snapshot[i]
  {
    if i < |snapshot| - 1 {
      ImportedLast(m, snapshot[..|snapshot| - 1], i);
    }
  }

  /** A snapshot imported into an empty state restores every account, and with the
      accounts the root hash. */
  lemma SnapshotRestores(sha: Sha, json: Codec, m: L.Accounts, snapshot: seq<L.Account>)
    requires Lists(snapshot, m)
    ensures Imported(map[], snapshot) == m
    ensures StateRoot(sha, json, Imported(map[], snapshot)) == StateRoot(sha, json, m)
  {
    var r := Imported(map[], snapshot);
    forall a: Address ensures (a in r <==> a in m) && (a in m ==> r[a] == m[a]) {
      ImportedAt(map[], snapshot, m, a);
      if a in m {
        assert m[a] in snapshot;
      }
    }
  }

  lemma EncodedDiffer(json: Codec, m: L.Accounts, m': L.Accounts)
    requires json.Lawful() && m != m'
    ensures PathsOf(Encoded(json, m)) != PathsOf(Encoded(json, m'))
  {
    hide PathOf, PathsOf;
    var a: Address :| (a in m) != (a in m') || (a in m && m[a] != m'[a]);
    var x, y := PathsOf(Encoded(json, m)), PathsOf(Encoded(json, m'));
    assert a in m ==> PathOf(a) in x && x[PathOf(a)] == json.encode(m[a]);
    assert a in m' ==> PathOf(a) in y && y[PathOf(a)] == json.encode(m'[a]);
    if a in m && a in m' {
      assert json.decode(json.encode(m[a])) != json.decode(json.encode(m'[a]));
    } else {
      NoPath(json, m, a);
      NoPath(json, m', a);
    }
  }

  lemma NoPath(json: Codec, m: L.Accounts, a: Address)
    ensures PathOf(a) in PathsOf(Encoded(json, m)) <==> a in m
  {
    hide PathOf, PathsOf;
    assert a in m ==> a in Encoded(json, m) && Encoded(json, m)[a].Some?;
    if PathOf(a) in PathsOf(Encoded(json, m)) {
      var k :| k in Encoded(json, m) && PathOf(k) == PathOf(a);
      PathInjective(k, a);
    }
  }

  /** On the trees that two states keep: one hash over different accounts yields a break. */
  lemma {:induction false} TreesBind(sha: Sha, json: Codec, x: Tree, m: L.Accounts, y: Tree, m': L.Accounts)
    returns (b: Break)
    requires json.Lawful() && m != m' && HashOf(x) == HashOf(y)
    requires SoundRoot(sha, x) && Mirrors(x, Encoded(json, m))
    requires SoundRoot(sha, y) && Mirrors(y, Encoded(json, m'))
    ensures FoundIn(sha, x, y, b)
  {
    hide Mirrors, Encoded, PathsOf, PathOf, SoundRoot, Represents, FoundIn, HashOf;
    EncodedDiffer(json, m, m');
    EncodedLengths(json, m);
    EncodedLengths(json, m');
    MirrorsRepresents(x, Encoded(json, m));
    MirrorsRepresents(y, Encoded(json, m'));
    b := RootBinds(sha, x, PathsOf(Encoded(json, m)), y, PathsOf(Encoded(json, m')), 160);
  }

  /** A state root commits to the accounts: two states under one root hash hold the same
      accounts, or what was hashed for their tries breaks the hash function. */
  lemma StateRootBinds(s: State, t: State) returns (b: Break)
    requires s.Valid() && t.Valid() && s.sha == t.sha && s.json == t.json
    requires s.accounts != t.accounts && s.RootHash() == t.RootHash()
    ensures FoundIn(s.sha, s.trie.root.tree, t.trie.root.tree, b)
  {
    hide Mirrors, Encoded, SoundRoot, FoundIn;
    b := TreesBind(s.sha, s.json, s.trie.root.tree, s.accounts, t.trie.root.tree, t.accounts);
  }

  /** Two orders of a block that both apply lead to the same root hash. */
  lemma {:induction false} OrderSameRoot(sha: Sha, json: Codec, w: L.World, s: seq<L.Tx>, t: seq<L.Tx>)
    requires multiset(s) == multiset(t)
    requires L.ExecuteBlock(w, s).error.None? && L.ExecuteBlock(w, t).error.None?
    ensures StateRoot(sha, json, L.ExecuteBlock(w, s).world.accounts) ==
            StateRoot(sha, json, L.ExecuteBlock(w, t).world.accounts)
  {
    OrderIndependence.OrderIrrelevant(w, s, t);
  }

  /** The registry half of executing one transaction. */
  method EnterInRegistry(tx: L.Tx, vr: ValidatorRegistry) returns (error: Option<L.Error>)
    modifies vr
    ensures error == if L.UpdateRegistry(old(vr.entries), tx).None? then Some(L.ValidatorNotFound) else None
    ensures vr.entries == if error.None? then L.UpdateRegistry(old(vr.entries), tx).value else old(vr.entries)
  {
    match tx.kind {
      case Participation =>
        var v := vr.GetValidator(tx.from);
        if v.Some? && !v.value.participating {
          vr.RegisterValidator(v.value.(participating := true));
        }
      case RegisterValidator =>
        var v := vr.GetValidator(tx.from);
        if v.None? {
          vr.RegisterValidator(L.Validator(tx.from, tx.value, 0, 0, true));
        } else {
          vr.RegisterValidator(v.value.(stake := Plus(v.value.stake, tx.value), participating := true));
        }
      case Delegate =>
        var v := vr.GetValidator(tx.to);
        if v.None? {
          return Some(L.ValidatorNotFound);
        }
        vr.RegisterValidator(v.value.(delegated := Plus(v.value.delegated, tx.value)));
      case Transfer =>
      case Unknown(_) =>
    }
    error := None;
  }

  /** `ApplyBlockWithRegistry` computes `ExecuteBlock`, errors and partial effects included. */
  method ApplyBlockWithRegistry(txs: seq<L.Tx>, state: State, vr: ValidatorRegistry)
    returns (error: Option<L.Error>)
    requires state.Valid()
    modifies state, state.trie, state.trie.root.repr, vr
    ensures state.Valid() && fresh(state.trie.root.repr - old(state.trie.root.repr))
    ensures var e := L.ExecuteBlock(L.World(old(state.accounts), old(vr.entries)), txs);
            error == e.error && L.World(state.accounts, vr.entries) == e.world
  {
    hide L.MoveFunds, L.CheckTransaction, L.UpdateRegistry;
    ghost var w := L.World(state.accounts, vr.entries);
    assert txs[0..] == txs;
    for i := 0 to |txs|
      invariant state.Valid() && fresh(state.trie.root.repr - old(state.trie.root.repr))
      invariant L.ExecuteBlock(w, txs).error == L.ExecuteBlock(L.World(state.accounts, vr.entries), txs[i..]).error
      invariant L.ExecuteBlock(w, txs).world == L.ExecuteBlock(L.World(state.accounts, vr.entries), txs[i..]).world
    {
      assert txs[i..][1..] == txs[i + 1..];
      error := EnterInRegistry(txs[i], vr);
      if error.Some? {
        return;
      }
      error := state.ApplyTransaction(txs[i]);
      if error.Some? {
        return;
      }
    }
    error := None;
  }
}
