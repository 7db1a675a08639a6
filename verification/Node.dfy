/**
 The consensus handlers of node.go in their own form: an object whose handlers update
 the pending entries, which are objects themselves. Each handler is proved to take the
 matching step of Consensus.
 */
module Nodes {
  import opened Base
  import L = Ledger
  import opened Approvals
  import opened Consensus
  import opened ConsensusLedger
  import opened Replay
  import opened Validators
  import opened Committees
  import opened Proposers
  import opened Chain

  ghost function Trackers(pending: map<Digest, BlockApproval>): (m: map<Digest, Tracker>)
    reads pending.Values
    ensures m.Keys == pending.Keys
    ensures forall h :: h in pending ==> m[h] == pending[h].View()
  {
    map h | h in pending :: pending[h].View()
  }

  /** Every entry has a valid tracker, and one of its own. */
  ghost predicate OwnTrackers(pending: map<Digest, BlockApproval>)
    reads pending.Values
  {
    && (forall h :: h in pending ==> pending[h].Valid())
    && (forall g, h :: g in pending && h in pending && g != h ==> pending[g] != pending[h])
  }

  function Addresses(committee: seq<L.Validator>): seq<Address> {
    seq(|committee|, i requires 0 <= i < |committee| => committee[i].address)
  }

  lemma AddressesAt(committee: seq<L.Validator>)
    ensures |Addresses(committee)| == |committee|
    ensures forall i :: 0 <= i < |committee| ==> Addresses(committee)[i] == committee[i].address
  {
  }

  class AppNode {
    const address: Address
    const state: State
    const vr: ValidatorRegistry
    const elections: Elections
    var committee: seq<Address>
    var pendingBlocks: map<Digest, BlockApproval>
    var approvalBuffer: map<Digest, seq<Address>>
    var chain: map<Word, Block>
    var height: Word
    // goroutines in flight, and history
    ghost const start: L.World
    ghost var watchers: multiset<Block>
    ghost var tasks: multiset<Task>
    ghost var nextId: nat
    ghost var spawned: set<nat>
    ghost var claims: seq<Claim>
    ghost var executed: seq<seq<L.Tx>>

    ghost predicate Valid()
      reads this, pendingBlocks.Values
    {
      OwnTrackers(pendingBlocks)
    }

    ghost function View(): Node
      reads this, pendingBlocks.Values
    {
      Node(address, committee, Trackers(pendingBlocks), approvalBuffer, watchers, tasks, chain, height,
           nextId, spawned, claims, executed)
    }

    ghost function World(): L.World
      reads state, vr
    {
      L.World(state.accounts, vr.entries)
    }

    /** Accounts and validators are those that the executed blocks, failing ones included,
        lead to from where the node started. */
    ghost predicate Synced()
      reads this, state, vr
    {
      World() == L.ExecuteChain(start, executed)
    }

    constructor (address: Address, state: State, elections: Elections, genesis: Block)
      ensures Valid() && Init(View()) && Synced()
      ensures chain == map[0 := genesis] && height == 0 && committee == []
      ensures this.address == address && this.state == state && this.elections == elections && vr == elections.vr
    {
      this.address, this.state, this.vr, this.elections := address, state, elections.vr, elections;
      start := L.World(state.accounts, elections.vr.entries);
      committee, pendingBlocks, approvalBuffer := [], map[], map[];
      chain, height := map[0 := genesis], 0;
      watchers, tasks, nextId, spawned, claims, executed := multiset{}, multiset{}, 0, {}, [], [];
    }

    /** `go n.finalizeApprovedBlock(block)` */
    ghost method Go(task: Task)
      requires Valid()
      modifies this`tasks, this`spawned
      ensures Valid() && View() == Spawn(old(View()), task)
    {
      hide OwnTrackers, Trackers, BlockApproval.Valid;
      tasks := tasks + multiset{task};
      spawned := spawned + {task.id};
    }

    /** Spawn a finalise task if the entry is approved by now. */
    method FinalizeIfApproved(approval: BlockApproval)
      requires Valid() && approval.Valid()
      modifies this`tasks, this`spawned
      ensures Valid()
      ensures View() == if !Approved(approval.View()) then old(View())
                        else Spawn(old(View()), Task(approval.block, approval.id))
    {
      hide Trackers, Approved, Spawn, BlockApproval.Valid;
      if approval.IsApproved() {
        Go(Task(approval.block, approval.id));
      }
    }

    method ProcessApproval(h: Digest, a: Address)
      requires Valid()
      modifies this, pendingBlocks.Values
      ensures Valid() && View() == ReceiveApproval(old(View()), h, a)
      ensures old(Synced()) ==> Synced()
    {
      hide View, OwnTrackers, Approved, Accepts, Signed, Spawn, BlockApproval.Valid, L.ExecuteChain;
      ViewFields();
      ViewPending(h);
      if h !in pendingBlocks {
        BufferApproval(h, a);
        return;
      }
      var ok := SignEntry(h, a);
      ViewPending(h);
      if ok {
        FinalizeIfApproved(pendingBlocks[h]);
      } else {
        assert View() == old(View()) by { Unsigned(old(View()), h, a); }
      }
    }

    lemma Unsigned(n: Node, h: Digest, a: Address)
      requires h in n.pending && !Accepts(n.pending[h], a)
      ensures n.(pending := n.pending[h := Signed(n.pending[h], a)]) == n
    {
      assert n.pending[h := n.pending[h]] == n.pending;
    }

    method SignEntry(h: Digest, a: Address) returns (ok: bool)
      requires Valid() && h in pendingBlocks
      modifies pendingBlocks[h]
      ensures Valid() && pendingBlocks[h].Valid()
      ensures ok <==> Accepts(old(pendingBlocks[h].View()), a)
      ensures View() == old(View()).(pending := old(View()).pending[h := Signed(old(pendingBlocks[h].View()), a)])
    {
      hide Approved, Accepts, Signed, BlockApproval.Valid;
      ok := pendingBlocks[h].AddSignature(a);
      assert Trackers(pendingBlocks) == old(Trackers(pendingBlocks))[h := pendingBlocks[h].View()];
    }

    method BufferApproval(h: Digest, a: Address)
      requires Valid()
      modifies this`approvalBuffer
      ensures Valid() && View() == old(View()).(buffer := old(approvalBuffer)[h := Buffered(old(View()), h) + [a]])
    {
      hide OwnTrackers, Trackers, BlockApproval.Valid;
      var buffered := if h in approvalBuffer then approvalBuffer[h] else [];
      approvalBuffer := approvalBuffer[h := buffered + [a]];
    }

    ghost method EndWatch(b: Block)
      requires Valid()
      modifies this`watchers
      ensures Valid() && View() == old(View()).(watchers := old(View().watchers) - multiset{b})
    {
      hide OwnTrackers, Trackers, BlockApproval.Valid;
      watchers := watchers - multiset{b};
    }

    method WatchTick(b: Block)
      requires Valid() && b in watchers
      modifies this
      ensures Valid() && View() == Tick(old(View()), b)
      ensures old(Synced()) ==> Synced()
    {
      hide View, Approved, Spawn, BlockApproval.Valid, L.ExecuteChain;
      ViewFields();
      ViewPending(b.hash);
      if b.hash !in pendingBlocks {
        EndWatch(b);
      } else if pendingBlocks[b.hash].IsApproved() {
        EndWatch(b);
        Go(Task(b, pendingBlocks[b.hash].id));
      }
    }

    method WatchTimeout(b: Block)
      requires Valid() && b in watchers
      modifies this
      ensures Valid() && View() == Timeout(old(View()), b)
      ensures old(Synced()) ==> Synced()
    {
      hide View, OwnTrackers, BlockApproval.Valid, L.ExecuteChain;
      ViewFields();
      RemovePending(b.hash);
      EndWatch(b);
    }

    method RemovePending(h: Digest)
      requires Valid()
      modifies this`pendingBlocks
      ensures Valid() && View() == old(View()).(pending := old(View().pending) - {h})
    {
      hide BlockApproval.Valid;
      pendingBlocks := pendingBlocks - {h};
      assert Trackers(pendingBlocks) == old(Trackers(pendingBlocks)) - {h};
    }

    /** The entry that an acceptable block gets: adding the buffered approvals one by one
        leaves the committee members among them. */
    method NewEntry(b: Block) returns (approval: BlockApproval)
      ensures fresh(approval) && approval.Valid()
      ensures approval.View() == EarlyTracker(View(), b)
    {
      hide OwnTrackers, Trackers;
      approval := new BlockApproval(nextId, b, committee);
      if b.hash in approvalBuffer {
        var buffered := approvalBuffer[b.hash];
        for i := 0 to |buffered|
          invariant approval.Valid()
          invariant approval.View() == Tracker(nextId, b, committee, set a | a in buffered[..i] && a in committee)
        {
          assert buffered[..i + 1] == buffered[..i] + [buffered[i]];
          var _ := approval.AddSignature(buffered[i]);
        }
        assert buffered[..|buffered|] == buffered;
      }
    }

    /** Early approvals are used up, a watcher starts. */
    method Admitted(b: Block)
      requires Valid()
      modifies this`approvalBuffer, this`watchers, this`nextId
      ensures Valid() && View() == Admit(old(View()), b)
    {
      hide OwnTrackers, Trackers, BlockApproval.Valid;
      approvalBuffer := approvalBuffer - {b.hash};
      watchers := watchers + multiset{b};
      nextId := nextId + 1;
    }

    method Store(h: Digest, approval: BlockApproval)
      requires Valid() && approval.Valid() && approval !in pendingBlocks.Values
      modifies this`pendingBlocks, this`tasks, this`spawned
      ensures Valid() && View() == Track(old(View()), h, approval.View())
    {
      hide Approved, Spawn, BlockApproval.Valid;
      pendingBlocks := pendingBlocks[h := approval];
      assert Trackers(pendingBlocks) == old(Trackers(pendingBlocks))[h := approval.View()];
      FinalizeIfApproved(approval);
    }

    /** The entry is stored once the node's own vote is in: within one step nobody sees the
        difference to storing it first and dropping it if the vote is refused. */
    method ProcessReceivedBlock(b: Block)
      requires Valid()
      modifies this
      ensures Valid() && View() == ReceiveBlock(old(View()), b)
      ensures old(Synced()) ==> Synced()
    {
      hide View, OwnTrackers, Wrap, Approved, Signed, Accepts, HasBlock, Admit, Track, BlockApproval.Valid;
      hide L.ExecuteChain, EarlyTracker;
      ViewFields();
      if b.hash in pendingBlocks {
        return;
      }
      if HasBlock(chain, height, b.hash) {
        return;
      }
      if b.number > Plus(height, CATCH_UP) || b.number < height {
        return;
      }
      var approval := NewEntry(b);
      Admitted(b);
      ghost var admitted := View();
      if address in committee {
        var ok := approval.AddSignature(address);
        assert View() == admitted;
        if !ok {
          return;
        }
      }
      Store(b.hash, approval);
    }

    lemma ViewPending(h: Digest)
      ensures h in pendingBlocks ==> View().pending[h] == pendingBlocks[h].View()
    {
    }

    lemma ViewFields()
      ensures View().self == address && View().committee == committee && View().pending.Keys == pendingBlocks.Keys
      ensures View().buffer == approvalBuffer && View().nextId == nextId
      ensures View().chain == chain && View().height == height && View().watchers == watchers && View().tasks == tasks
    {
    }

    /** Whoever finds the entry still pending removes it, then adds and executes the block. */
    method FinalizeApprovedBlock(block: Block, ghost id: nat)
      requires Valid() && state.Valid() && Task(block, id) in tasks
      modifies this, state, state.trie, state.trie.root.repr, vr
      ensures Valid() && state.Valid() && View() == Finalize(old(View()), Task(block, id))
      ensures World() == if block.hash in old(pendingBlocks) then L.ExecuteBlock(old(World()), block.txs).world
                         else old(World())
      ensures old(Synced()) ==> Synced()
    {
      hide View, OwnTrackers, AddAndExecute, L.ExecuteBlock, L.ExecuteChain, State.Valid, BlockApproval.Valid;
      ViewFields();
      EndTask(Task(block, id));
      if block.hash !in pendingBlocks {
        return;
      }
      ClaimEntry(block, id);
      AddAndApply(block);
    }

    /** The proposer adds and executes its own block, without asking for approval. */
    method AddOwnBlock(block: Block)
      requires Valid() && state.Valid()
      modifies this, state, state.trie, state.trie.root.repr, vr
      ensures Valid() && state.Valid() && View() == Next(old(View()), Produce(block))
      ensures World() == L.ExecuteBlock(old(World()), block.txs).world
      ensures old(Synced()) ==> Synced()
    {
      hide View, OwnTrackers, AddAndExecute, L.ExecuteBlock, L.ExecuteChain, State.Valid, BlockApproval.Valid;
      AddAndApply(block);
    }

    /** `ForceCommitteeAndProposer` in the node: it takes the committee that the elections
        leave in office, and only the committee changes. */
    method ForceCommittee()
      requires Valid() && elections.Valid() && elections.vr == vr
      requires forall n :: IsPermutation(elections.perm(n), n)
      modifies this`committee, elections
      ensures Valid() && elections.Valid()
      ensures View() == Next(old(View()), Elect(Addresses(elections.committee)))
      ensures |committee| == |elections.committee|
      ensures forall i :: 0 <= i < |committee| ==> committee[i] == elections.committee[i].address
      ensures Participating(vr.entries) != {} ==>
                (elections.ProposerForBlock(Plus(height, 1)).Some? <==>
                   (height + 1) % 270 != 0 && height / 270 * 270 + 270 < WORD)
      ensures old(Synced()) ==> Synced()
    {
      hide View, OwnTrackers, BlockApproval.Valid, Elections.Valid, Wrap, IsPermutation, L.ExecuteChain, Addresses;
      hide Heaviest, IsCommittee, PositionAt;
      elections.ForceCommitteeAndProposer(height);
      assert View() == old(View());
      TakeOffice(Addresses(elections.committee));
      AddressesAt(elections.committee);
    }

    method TakeOffice(c: seq<Address>)
      requires Valid()
      modifies this`committee
      ensures Valid() && View() == old(View()).(committee := c) && committee == c
    {
      hide OwnTrackers, Trackers, BlockApproval.Valid;
      committee := c;
    }

    /** Whatever the node has been through, its accounts are those that the transactions it
        applied lead to, and no (sender, nonce) pair is among them twice. */
    lemma NeverReplays(p: nat, q: nat)
      requires Synced()
      requires var log := AppliedLog(start, executed);
               p < q < |log| && log[p].from == log[q].from && SentBy(log, log[p].from) <= WORD
      ensures var log := AppliedLog(start, executed);
              log[p].nonce != log[q].nonce && state.accounts == L.AccountsAfter(start.accounts, log)
    {
      hide AppliedLog, L.AccountsAfter, SentBy, L.ExecuteChain;
      LogExplainsAccounts(start, executed);
      NoReplay(start, executed, p, q);
    }

    ghost method EndTask(task: Task)
      requires Valid()
      modifies this`tasks
      ensures Valid() && View() == old(View()).(tasks := old(tasks) - multiset{task})
    {
      hide OwnTrackers, Trackers, BlockApproval.Valid;
      tasks := tasks - multiset{task};
    }

    method ClaimEntry(block: Block, ghost id: nat)
      requires Valid() && block.hash in pendingBlocks
      modifies this`pendingBlocks, this`claims
      ensures Valid()
      ensures var n := old(View());
              View() == n.(pending := n.pending - {block.hash},
                           claims := n.claims + [Claim(n.pending[block.hash], Task(block, id))])
    {
      hide OwnTrackers, BlockApproval.Valid;
      claims := claims + [Claim(pendingBlocks[block.hash].View(), Task(block, id))];
      RemovePending(block.hash);
    }

    method AddAndApply(block: Block)
      requires Valid() && state.Valid()
      modifies this`chain, this`height, this`executed, state, state.trie, state.trie.root.repr, vr
      ensures Valid() && state.Valid() && View() == AddAndExecute(old(View()), block)
      ensures World() == L.ExecuteBlock(old(World()), block.txs).world
      ensures old(Synced()) ==> Synced()
    {
      hide L.ExecuteBlock, L.ExecuteChain, View, Trackers, OwnTrackers, State.Valid, BlockApproval.Valid;
      ExecuteChainAppend(start, executed, block.txs);
      AddBlock(block);
      var _ := ApplyBlockWithRegistry(block.txs, state, vr);
    }

    method AddBlock(block: Block)
      requires Valid()
      modifies this`chain, this`height, this`executed
      ensures Valid() && View() == AddAndExecute(old(View()), block)
      ensures executed == old(executed) + [block.txs]
    {
      hide OwnTrackers, Trackers, BlockApproval.Valid;
      if block.number != 0 {
        chain := chain[block.number := block];
      }
      height := block.number;
      executed := executed + [block.txs];
    }
  }
}
