# Dyphira node: a verified model

Dyphira is a delegated proof-of-stake node. This project models what the node decides, in Dafny,
and proves what those decisions guarantee: the Merkle trie and the ledger on top of it, the choice
of transactions for a block, the approval and finalisation of blocks, committees and proposers, fork
choice, and the BAR peer lists.

`dafny verify dfyconfig.toml` checks everything.

| file | what it holds |
|---|---|
| `Base.dfy` | bytes, digests, addresses, `uint64` with its wrap-around; order-independent sums |
| `TrieModel.dfy`, `TrieBinding.dfy` | the trie as a value: reads after writes, the root as a function of the contents, what a root commits to |
| `MerkleTrie.dfy` | the trie on the heap, with its shadow map, refining the value |
| `Ledger.dfy` | accounts, validators and block execution as functions |
| `Conservation.dfy`, `OrderIndependence.dfy`, `Replay.dfy`, `RunSupply.dfy` | supply, order and nonces over blocks and runs of blocks, failing ones included |
| `Registry.dfy`, `Chain.dfy` | `ValidatorRegistry`, `State` and `ApplyBlockWithRegistry` as objects updated in place, refining `Ledger` |
| `Batches.dfy`, `Pool.dfy`, `Batching.dfy` | when independently validated transactions execute as a block; the pool, the greedy batch, the batcher |
| `Approval.dfy` | the approval tracker and its quorums |
| `Consensus.dfy`, `SignerSets.dfy`, `ConsensusRuns.dfy`, `ConsensusLedger.dfy` | the protocol as a transition system, and what holds over every run of it: signers, approvals, claims, and what is executed |
| `Goroutines.dfy` | which watchers and finalise tasks start and end, and that no entry is left without one |
| `Agreement.dfy` | how many members may sign twice at a height before nodes can disagree there |
| `ConsensusCases.dfy` | runs of the protocol that one would not expect |
| `Node.dfy` | the handlers of the node on the heap, refining the transition system |
| `Sorting.dfy`, `Committee.dfy`, `Proposer.dfy`, `ForkChoice.dfy` | committees, proposer slots, elections, fork choice |
| `Peers.dfy` | the BAR peer lists and `find_nodes` |

## How the model reads the code

- SHA3-256 (section 6.1 of FIPS 202) is a parameter `sha`, JSON for accounts a parameter `json`
  whose decoding undoes its encoding. Every statement holds for all of them.
- `uint64` is `Word`; additions wrap (`Plus`). No bound is assumed unless a contract says so.
- Iterating over a Go map is a loop that picks any remaining key; priorities are any function to
  the reals; `sort.Slice` is any sorted rearrangement; `rand.Perm` is any permutation.
- In the protocol each message delivery, watcher tick or timeout, and each run of a spawned
  finalise task is one atomic step; a spawned task may run at any later step, or never.
- Objects on the heap (`TrieNode`, `MerkleTrie`, `State`, `ValidatorRegistry`, `TransactionPool`,
  `TransactionBatcher`, `BlockApproval`, `AppNode`, `Elections`, `ParticipationTracker`, `BARNetwork`)
  are proved to compute functions on values; what the system promises is then proved of those functions.

## Where the code does not keep what one would expect

Each of these comes as a concrete case beside the exact condition under which the code does keep
the property.

- Supply: a block that fails has already entered the refused transaction's stake in the registry
  (`RefusedRegistrationMints`; exact amount for a block in `FailedBlockSupply`, for any run in
  `RunConserves`), and `Value + Fee` may wrap (`WrappedDueMints`, exact condition in `StepConserves`).
  A transfer to oneself and a participation lose their value (`Burn`).
- Canonical root: with keys that continue one another the root depends on the order of insertion,
  up to a collision between inputs hashed for the two tries (`PrefixOrderMatters`), except for a value
  that equals the two labels below it (`PrefixOrderAgrees`); without such keys it never does
  (`RootIsCanonical`).
- Nil values: writing nil and writing an empty value give the same root over different contents
  (`NilHashesAsEmpty`); the state never writes nil, and for values that are not nil the root binds
  (`RootBinds`).
- Fee limit: a running fee total that wraps lets a batch exceed its limit (`WrappedFeesExceedLimit`, in
  the order that the fee-to-value priority produces by `SmallFeeFirst`; exact condition in
  `GreedyFeeLimit`).
- Batches: candidates are validated one by one, so a batch with two transactions of one sender never
  applies in full (`SameSenderBatchFails`, exact condition in `EveryOrderApplies`).
- Finalisation: a finalise task that runs late can claim a new entry for the same hash that nobody
  has signed (`LateTaskClaimsUnsigned`). This happens exactly if a block is admitted short of its
  threshold while such a task is on the way (`ClaimApprovedIff`); the hash itself was approved before
  in any case (`FinalizedWasApproved`).
- One block per height: no vote is kept per height, so a node signs and finalises two blocks of one
  height (`TwinsReopen`). Nodes agree on a height under a committee of n exactly as long as fewer of
  its members sign two hashes there than two quorums must have in common, which is
  2 * threshold - n (`AgreementIff`).
- Execution once: the second of two blocks at one height takes the first one's place in the chain,
  so the first is admitted and executed again (`TwinsReopen`), and its registration is entered again
  (`TwinsMint`). A block numbered 0 is executed at every delivery at height 0, since that number
  always reads as the genesis block (`ZeroReopens`). Exactly when an executed block is ignored is
  `ExecutedIsKnown`.
- A block whose early approvals include the node's own is dropped by a committee member
  (`EarlyOwnVoteDropsBlock`, exact condition in `FirstArrivalIff`).
- Elections: the first height of an epoch has no proposer, and every other one has, as long as the
  epoch ends within 64 bits (`ForceCommitteeAndProposer` states both). The repository's README speaks
  of epochs of 10 blocks and a round-robin proposer; the code has 270 and turns of nine.

## Model

| member | source | states |
|---|---|---|
| TrieModel.LookupInsert | merkle_trie.go:41-86 | for all paths, prefixes of one another included, an insertion is read back under its own path and changes no other |
| TrieModel.PathInjective | merkle_trie.go:53-53 | two keys that take the same turns in the trie are the same key, whatever their lengths |
| TrieModel.PathSpellsKey | merkle_trie.go:53-58 | the turns of a key, root first with left as 0 and right as 1, are the key read as a big-endian number |
| TrieModel.NilHashesAsEmpty | merkle_trie.go:41-51 | a nil value and an empty one are told apart by lookup but give the same root hash |
| TrieModel.SoundHash | merkle_trie.go:88-100 | the hash kept in the nodes is the Merkle root of the contents, which is defined on the contents alone |
| TrieModel.InsertSound | merkle_trie.go:41-62 | insertion keeps every hash right as long as no path continues another |
| TrieModel.RootIsCanonical | merkle_trie.go:34-62 | the root hash after any run of insertions is a function of the final contents, whatever the order and the overwrites |
| TrieBinding.FindBreak | merkle_trie.go:88-100 | from two different uniform trees with one hash it computes a collision between an input hashed for the one and an input hashed for the other, or an input hashed for one of them that gives zeros |
| TrieBinding.RootBinds | merkle_trie.go:88-100 | equal roots over different contents with keys of one length yield such a break among the inputs hashed for the two tries |
| TrieBinding.RootBindsRuns | merkle_trie.go:34-62 | the same for the tries that two runs of insertions build, with the break found in those tries |
| TrieBinding.PrefixOrderMatters | merkle_trie.go:46-60 | for keys that continue one another the two insertion orders reach the same root only through a collision between inputs hashed for the two tries, unless the value equals the two labels below it |
| TrieBinding.PrefixOrderAgrees | merkle_trie.go:46-60 | and in that one case both orders build the same tree |
| TrieBinding.PrefixNodes | merkle_trie.go:46-60 | either order leaves the same value and children under the shorter key; only the label differs, the hash of the value or of the children |
| TrieBinding.PrefixOrderSameContents | merkle_trie.go:41-86 | although both orders leave the same contents |
| MerkleTries.MerkleTrie.Insert | merkle_trie.go:34-39 | nodes and shadow map are updated together: the tree by tree insertion, the map at exactly one key |
| MerkleTries.MerkleTrie.InsertAt | merkle_trie.go:41-62 | the recursive insertion on the heap computes tree insertion below the given depth, touching only its own nodes and fresh ones |
| MerkleTries.TrieNode.SetChild | merkle_trie.go:54-61 | hanging a child below a node recalculates the hash from both children |
| MerkleTries.MerkleTrie.Get | merkle_trie.go:64-86 | a walk down the nodes finds the value last inserted under exactly this key, else nothing |
| MerkleTries.MerkleTrie.Find | merkle_trie.go:73-86 | the recursive walk is lookup in the tree that the nodes stand for |
| MerkleTries.MerkleTrie.All | merkle_trie.go:123-133 | every pair of the shadow map, once, and nothing else |
| MerkleTries.MirrorsRepresents | merkle_trie.go:20-39 | the nodes hold exactly the non-nil entries of the shadow map |
| Chain.State.GetAccount | state.go:22-34 | the account last put under the address, or an empty one |
| Chain.State.PutAccount | state.go:36-44 | changes one account and keeps trie, encoding and root hash in step |
| Chain.State.RootHash | state.go:14-16 | the root hash of the state trie is a function of the accounts alone |
| Chain.StateRootBinds | merkle_trie.go:88-100 | two states under one root hash hold the same accounts, or inputs hashed for their two tries collide or hash to zeros |
| Chain.State.ApplyTransaction | state.go:46-107 | the checks in order with their errors, then recipient and sender written in this order; nothing changes on error |
| Chain.State.ApplyBlock | state.go:109-120 | applies up to the first refused transaction, and reports an error exactly if there is one |
| Chain.State.ExportSnapshot | state.go:150-164 | lists every account once and nothing else |
| Chain.State.ImportSnapshot | state.go:166-177 | overwrites account by account, in order |
| Chain.ImportedLast | state.go:166-177 | whatever the state held and however often an address is listed, the last listing counts |
| Chain.SnapshotRestores | state.go:150-177 | an exported snapshot imported into a fresh state restores every account and the root hash |
| Chain.EnterInRegistry | blockchain.go:278-325 | the registry half of a transaction, and its error for an unknown validator |
| Chain.ApplyBlockWithRegistry | blockchain.go:275-333 | state and registry end exactly as block execution says, errors and partial effects included |
| Chain.OrderSameRoot | blockchain.go:276-333 | two orders of a block that both apply lead to the same root hash |
| Ledger.AppliedPrefix | blockchain.go:276-333 | what any block leaves: its applied prefix in full plus what the refused transaction had already written |
| Conservation.StepSupply | blockchain.go:276-333 | the exact change of total balances and stakes by any applied transaction, wrap-around included |
| Conservation.StepConserves | state.go:57-102 | an applied transaction conserves value exactly when its two additions wrap together or not at all |
| Conservation.BlockConserves | blockchain.go:276-333 | a block that applies lowers the supply by exactly the burned amounts; with a supply below 2^64 nothing wraps |
| Conservation.ChainConserves | blockchain.go:276-333 | the same over any run of blocks that apply |
| Conservation.FailedBlockSupply | blockchain.go:279-330 | after a failed block the supply is off by exactly the stake that the refused transaction entered |
| RunSupply.RunConserves | blockchain.go:276-333 | over any run of blocks, failing ones included, supply falls by what the applied transactions burn and rises by what the refused ones leave in the registry |
| RunSupply.RepeatedBlockMints | blockchain.go:286-330 | a block executed twice enters its registration twice |
| Conservation.RefusedRegistrationMints | blockchain.go:286-330 | a registration without funds leaves its stake in the registry |
| Conservation.WrappedDueMints | state.go:57-86 | a wrapped `Value + Fee` lets an empty account pay out 2^64 - 1 |
| OrderIndependence.BlockAccount | state.go:46-120 | closed form: each account after a block is its start plus sums over the block, modulo 2^64 |
| OrderIndependence.BlockValidator | blockchain.go:276-333 | closed form: each validator after a block from sums over the block |
| OrderIndependence.AccountsOrderIrrelevant | state.go:109-120 | two accepted orders of the same transactions leave the same accounts |
| OrderIndependence.OrderIrrelevant | blockchain.go:276-333 | two accepted orders of the same block leave the same accounts and validators |
| OrderIndependence.WhyRefused | blockchain.go:276-333 | exactly why a transaction is refused, first reason first: unknown validator, nonce, balance, zero amount, unknown type |
| OrderIndependence.RegistryAfterBlock | blockchain.go:276-333 | every validator after any block, failing ones included, in closed form: the applied transactions count, and a refused one too unless the registry refused it |
| OrderIndependence.AccountsAfterBlock | blockchain.go:276-333 | every account after any block, failing ones included: what its applied transactions add up to |
| OrderIndependence.LongestStretch | state.go:109-120 | on its own the state applies the longest stretch in which nothing is refused, and keeps what it adds up to |
| Replay.LogExplainsAccounts | blockchain.go:276-333 | over any run of blocks, failing ones included, the accounts are those that the applied transactions lead to |
| Replay.NoncesConsecutive | state.go:53-55 | every applied transaction carries its sender's starting nonce plus the number of its applied predecessors plus one |
| Replay.NonceMovesOnlyBySending | state.go:86-105 | an account's nonce moves by the number of its applied sends and by nothing else |
| Replay.ReplayOnlyAfterWrap | state.go:53-87 | two applied transactions of a sender share a nonce exactly when whole rounds of 2^64 sends lie between them |
| Replay.NoReplay | state.go:53-87 | so up to 2^64 sends no (sender, nonce) pair is applied twice |
| Batches.DistinctSendersApply | transaction_pool.go:282-301 | fundable and executable candidates of different senders execute in full, one after the other |
| Batches.AppliedSendersDistinct | state.go:53-55 | candidates checked against one state that apply in full have different senders |
| Batches.BatchAppliesIffDistinct | transaction_pool.go:282-333 | a batch of executable candidates applies exactly when no sender occurs twice |
| Batches.EveryOrderApplies | transaction_pool.go:282-333 | every order of a batch applies exactly when no sender occurs twice and each transaction is executable on the registry as it stands |
| Batches.EveryOrderAgrees | blockchain.go:276-333 | and then all orders lead to one world |
| Pool.TransactionPool.AddTransaction | transaction_pool.go:85-198 | exactly which transactions are admitted, by type, and that nothing else changes |
| Pool.TransactionPool.RemoveTransaction | transaction_pool.go:200-205 | removes one hash, keeps the others |
| Pool.TransactionPool.MarkTransactionAsUsed | transaction_pool.go:404-412 | flags one transaction |
| Pool.TransactionPool.Candidates | transaction_pool.go:280-301 | lists exactly the unused fundable transactions, each once |
| Pool.TransactionPool.CreateOptimizedBatch | transaction_pool.go:269-350 | the greedy batch over the candidates sorted by priority, with its fee and size |
| Pool.TransactionPool.Fill | transaction_pool.go:308-333 | the greedy loop computes the greedy selection |
| Pool.GreedyWithinLimits | transaction_pool.go:313-333 | a batch keeps the priority order and the limits on number and size |
| Pool.GreedyFeeLimit | transaction_pool.go:320-331 | its fees stay within the fee limit exactly when no running total wraps |
| Pool.ModestFeesDoNotWrap | transaction_pool.go:320-331 | which holds when every fee leaves room for the limit below 2^64 |
| Pool.WrappedFeesExceedLimit | transaction_pool.go:295-331 | and fails for a pool of two transactions, one of which offers a fee of nearly 2^64 that its sender can pay because `Value + Fee` wraps |
| Pool.SmallFeeFirst | transaction_pool.go:55-83 | the code's fee-to-value priority, over the reals, sorts these two in that order at any age |
| Pool.GreedyMaximal | transaction_pool.go:313-333 | unless a total wraps, whatever was left out no longer fits beside what was taken |
| Pool.GreedyProgress | transaction_pool.go:313-333 | one candidate whose fee is within the limit keeps the batch from being empty, wrap-around or not |
| Pool.ChosenBatchApplies | transaction_pool.go:270-350 | for what the pool chooses from a state: every order executes on it exactly when senders differ and all are executable |
| Pool.SameSenderBatchFails | transaction_pool.go:282-333 | two candidates of one sender are both chosen and the second is refused for its nonce when the batch executes |
| Batching.TransactionBatcher.NextBatch | transaction_batching.go:45-68 | returns the first `batchSize` transactions of the greedy batch over the candidates by descending priority, or all of it, and flags exactly that |
| Batching.BatchBounded | transaction_batching.go:54-60 | a call returns at most `batchSize` transactions, and fewer only if that is the whole greedy batch |
| Batching.StepDrains | transaction_batching.go:45-68 | a call takes what it returns out of the candidates, and returns something while a candidate within the fee limit is left |
| Batching.BatchesDisjoint | transaction_batching.go:45-68 | no transaction is returned by two calls |
| Batching.PoolDrained | transaction_batching.go:45-68 | within as many calls as there are candidates every candidate within the fee limit has been returned, for any priorities |
| Approvals.BlockApproval.AddSignature | block_approval.go:28-38 | a signature is accepted once and from members only, and then recorded |
| Approvals.BlockApproval.IsCommitteeMember | block_approval.go:51-59 | the search finds exactly the members |
| Approvals.BlockApproval.IsApproved | block_approval.go:46-49 | approved means the threshold is reached |
| Approvals.ThresholdIsByzantine | block_approval.go:24-24 | the threshold is n less floor((n-1)/3) and within n |
| Approvals.QuorumsIntersect | block_approval.go:19-59 | signers never outnumber seats, and two approved trackers of a committee share at least 2 * threshold - n signers, more than floor((n-1)/3) |
| Approvals.FullCommitteeApproves | block_approval.go:46-49 | all members together reach the threshold |
| Consensus.StepInv | node.go:452-601 | every step keeps trackers distinct, signed by members only, and with a finalise task spawned exactly for the approved ones |
| Consensus.RunInv | node.go:452-601 | so does every run |
| ConsensusRuns.TaskWasApproved | node.go:525-596 | every spawned finalise task was spawned for a hash approved at an earlier moment |
| ConsensusRuns.FinalizedWasApproved | node.go:974-1009 | whenever a hash is finalised it had earlier a tracker with at least the threshold of committee signers |
| ConsensusRuns.ClaimedAtMostOnce | node.go:974-984 | however many tasks race, each entry is claimed at most once and never comes back |
| ConsensusRuns.ClaimApprovedIff | node.go:452-601 | at every moment of a run, whichever task runs next, all claims are of approved entries exactly when no block was admitted short of its threshold while a finalise task for its hash was on the way |
| ConsensusRuns.RiskyDelivery | node.go:483-528 | after such an admission, running the task on the way claims the new entry without approval |
| ConsensusRuns.UnapprovedClaimIsLate | node.go:545-601 | an entry claimed without approval is claimed by a task left over from an earlier entry for the same hash |
| ConsensusCases.LateTaskClaimsUnsigned | node.go:571-601 | a run in which a late task finalises an entry that nobody signed |
| ConsensusRuns.ApprovedIsServed | node.go:525-596 | at every moment of a run every approved entry has a finalise task on the way |
| ConsensusRuns.ApprovedCanBeClaimed | node.go:974-984 | so an approved entry can always be claimed at once |
| Goroutines.TimeoutRemoves | node.go:579-584 | a time-out removes the entry of its block, approved or not, ends the watch, and changes nothing else |
| Goroutines.OpenIsWatched | node.go:571-601 | at every moment of a run every entry short of its threshold has a watcher on its block |
| Goroutines.NoEntryStuck | node.go:571-601 | so for every pending entry there is a step that removes it: its time-out or its finalisation |
| Goroutines.GoroutinesBalance | node.go:452-601 | over every run the watchers started are those ended and those still there, and the finalise tasks spawned are those that ran and those on the way, with exactly which events start, end and spawn them |
| Agreement.ApprovedQuorumsMeet | block_approval.go:19-59 | whenever in two runs hashes were approved by one committee, the signers have at least 2 * threshold - n members in common |
| Agreement.ApprovedAgree | block_approval.go:19-59 | whenever in two runs hashes of one height were approved by one committee, they are equal, if fewer members than that sign two hashes of a height |
| Agreement.FinalizedAgree | node.go:974-1009 | so two nodes that finalise a height under one committee finalise the same hash |
| Agreement.Disagreement | node.go:452-601 | with that many such members, two nodes finalise any two blocks of one height, in runs in which nobody else signs both |
| Agreement.AgreementIff | node.go:452-601 | hence nodes agree in all runs exactly below that number |
| ConsensusLedger.LastIsTip | blockchain.go:139-161 | over any run, the block executed last is the one at the current height |
| ConsensusLedger.ExecutedIsKnown | node.go:461-480 | however a run goes on, an executed block delivered again is ignored if it is pending, below the block executed last, more than ten above it, or what the chain holds at its number; and, as hashes go with one number, only then |
| ConsensusLedger.StaleAboveGenesis | blockchain.go:139-161 | above number 0 that means: until another block of its number or one up to ten lower is executed |
| ConsensusCases.TwinsReopen | node.go:466-528 | a run in which one node signs and finalises two blocks of one height, admits the first again and executes it again |
| ConsensusCases.TwinsMint | blockchain.go:286-330 | in that run a registration is paid once and entered twice |
| ConsensusCases.ZeroReopens | node.go:461-480 | a block numbered 0 is admitted and executed again at once, with nothing in between |
| ConsensusCases.EarlyOwnVoteDropsBlock | node.go:488-520 | a member that hears its own approval first drops the block, with the buffer emptied and the watcher left |
| ConsensusLedger.WorldStep | node.go:974-1009 | a step changes the ledger by executing the block it claims or produces, and only then |
| ConsensusLedger.RunNeverReplays | node.go:974-1009 | in every run, whatever is delivered, no (sender, nonce) pair is applied twice |
| SignerSets.FirstArrivalIff | node.go:483-524 | in every run, an acceptable block that arrives for the first time becomes pending exactly unless the node is a member and an approval bearing its address came first |
| SignerSets.SignersVoted | node.go:483-569 | in every run, every signature on a pending block was delivered in an approval or is the vote of the node while a member |
| SignerSets.BufferHoldsApprovers | node.go:545-556 | while a block is unknown the buffer holds exactly its approvers |
| SignerSets.SignerSet | node.go:483-569 | the signers of a pending block are the members among all approvers, early or late, plus the node if it is a member: the same for every interleaving |
| Nodes.AppNode.NewEntry | node.go:483-500 | adding the buffered approvals one by one, whoever sent them and however often, leaves exactly the committee members among them |
| Nodes.AppNode.ProcessReceivedBlock | node.go:452-531 | the handler takes the block-delivery step, and state and registry stay those that the executed blocks lead to |
| Nodes.AppNode.ProcessApproval | node.go:545-569 | the handler takes the approval-delivery step, likewise |
| Nodes.AppNode.WatchTick | node.go:585-598 | a tick takes the tick step, likewise |
| Nodes.AppNode.WatchTimeout | node.go:579-584 | a timeout takes the timeout step, likewise |
| Nodes.AppNode.FinalizeApprovedBlock | node.go:974-1009 | a finalise task takes the finalise step on the real state and registry, which stay those that the executed blocks lead to |
| Nodes.AppNode.AddOwnBlock | node.go:716-726 | a proposer adds and executes its own block without approval, likewise |
| Nodes.AppNode.ForceCommittee | node.go:763-832 | the node takes the elected committee and nothing else changes; the next height then has a proposer exactly when it opens no epoch |
| Nodes.AppNode.NeverReplays | node.go:974-1009 | the accounts on the heap are those that the applied transactions lead to, with no (sender, nonce) pair twice |
| Validators.ValidatorRegistry.GetValidator | validator_registry.go:33-51 | the validator stored under the address, if any |
| Validators.ValidatorRegistry.RegisterValidator | validator_registry.go:21-31 | stores under the validator's own address and changes nothing else |
| Validators.ValidatorRegistry.GetAllValidators | validator_registry.go:84-104 | every entry once, in some order |
| Committees.RankIsOrder | committee.go:48-54 | weight, then address, is an order that sorting may use |
| Committees.SelectCommittee | committee.go:20-62 | returns as many participating validators as fit; each outweighs the members after it and every participating validator left out, by stake, delegations and reputation, then by the first differing byte of the address |
| Committees.CommitteeHeaviest | committee.go:48-54 | every committee has this property |
| Committees.CommitteeByTotals | committee.go:48-54 | while no total exceeds 64 bits, members come by descending totals and nobody left out has a greater one |
| Committees.CommitteeUnique | committee.go:20-62 | there is only one such committee, whatever the order of enumeration |
| Committees.CommitteeDistinct | committee.go:20-62 | no address sits twice |
| Proposers.NewProposerSelectorWithRotation | committee.go:72-103 | slots cover exactly the heights of the epoch, by turns of nine and then round-robin |
| Proposers.ShortEpochTurns | committee.go:87-93 | in a short epoch the shuffled positions get nine heights each until it runs out |
| Proposers.LongEpochFair | committee.go:83-100 | otherwise every position gets the floor or the ceiling of its even share |
| Proposers.Elections.NewcomerWaiting | node.go:786-802 | tells whether a participating validator has no seat |
| Proposers.Elections.ForceCommitteeAndProposer | node.go:763-832 | re-elects exactly when no election was held for the epoch, fewer than 30 sit, or a participating validator has no seat; afterwards the next height has a proposer, the member whose turn it is, exactly when it does not open an epoch |
| ForkChoices.ListingSum | fork_choice.go:50-57 | a sum over a listing of the registry does not depend on the listing |
| ForkChoices.ParticipationTracker.RecordVote | fork_choice.go:17-24 | the latest vote replaces the earlier one |
| ForkChoices.CountVotes | fork_choice.go:43-57 | the weight table holds every hash's tally modulo 2^64 |
| ForkChoices.SelectHead | fork_choice.go:41-68 | the head has the greatest tally modulo 2^64, or is the zero hash; while no single tally wraps it has the greatest tally and is the hash with a strict majority if there is one |
| ForkChoices.MajorityWins | fork_choice.go:41-68 | a hash with a strict majority of the voting weight is the only possible head |
| Peers.StepInv | bar_network.go:124-257 | every operation keeps the lists disjoint, statuses right and the whitelist within its cap |
| Peers.ReachableInv | bar_network.go:124-257 | so does every sequence of operations |
| Peers.BannedForever | bar_network.go:201-227 | a banned peer stays banned, with its record unchanged, and on no other list |
| Peers.PeersConserved | bar_network.go:124-257 | no operation loses a peer or changes the status of another peer |
| Peers.StandingAfter | bar_network.go:124-257 | the list that each operation leaves its peer on: banned from either list, down at the list's threshold, up while there is room |
| Peers.ScoreIsSum | bar_network.go:229-257 | over every sequence of operations a peer's score is the sum of the increments it was given while not banned, wrapped to 64 bits |
| Peers.BARNetwork.Add | bar_network.go:124-144 | a peer on no list goes to the greylist |
| Peers.BARNetwork.PromoteToWhitelist | bar_network.go:153-171 | moves from greylist to whitelist exactly when there is room |
| Peers.BARNetwork.DemoteToGreylist | bar_network.go:180-192 | moves from whitelist to greylist |
| Peers.BARNetwork.BanPeer | bar_network.go:201-227 | moves from either list to the banned ones |
| Peers.BARNetwork.UpdatePOMScore | bar_network.go:229-257 | a score and what it triggers |
| Peers.BARNetwork.GetPeerStatus | bar_network.go:389-404 | the status is that of the one list that holds the peer |
| Peers.BARNetwork.FindNodes | bar_network.go:259-301 | for any random numbers it ends and returns every whitelisted peer exactly once |
| Peers.Select | bar_network.go:280-295 | picks every index once, each time the first free one from its random start on |
| Peers.Probe | bar_network.go:288-293 | linear probing ends, at the first free index from the start on, around the end |

## Left out

- The key that a trie node stores beside its value: nothing reads it.
- Errors of the storage, of JSON and of signing: the paths that report them cannot be taken with a map for the storage and a lawful encoding.
- Signatures, key and address derivation, transaction and header hashing: an approval is a hash and an address, and admission takes the outcome of the signature check as an argument.
- Chain linkage: adding a block checks neither the previous hash nor contiguity. The search for a block hash by height is a predicate on the stored heights.
- Gossip registration of validators and starting balances: they overwrite registry entries and mint balances outside block execution, so the conservation and replay results speak of block execution only.
- Removal of executed transactions from the pool after finalisation, and metrics.
- Unconditional agreement per height: a node keeps no vote record per height, so agreement is proved up to the number of members that sign two hashes of a height. A producer adds its own block without approval (`Produce` steps), so approval is claimed for finalised blocks only.
- Data races within a handler: handlers are atomic steps.
- Aliasing of transactions between pool and batch: the flag set by `NextBatch` shows in the pool, not in the returned copies.
- Error messages of `AddTransaction`: admitted or not is modelled, the reason is not.
- Floating-point rounding of priorities, and the average priority of a batch: any priority function is allowed, and the code's own is stated over the reals.
- `SelectTransactions` and pool statistics: the same filter without the greedy pass.
- Replacement of inactive committee members: nothing calls it on the node's committee.
- Reputation records, round numbers and time stamps of peers: bookkeeping beside the lists.
- HTTP, command line, libp2p, handshakes, fast synchronisation (a stub), optimistic push, inactivity rules, crash recovery.
