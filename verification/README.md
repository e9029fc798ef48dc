# Verification of the node's state-keeping core

A Dafny model of the parts of the node that keep redundant views of one truth in step: the canonical
chain and its indexes, the section indexer, the event feed, the transaction pool with its lists, heaps and
scheduler, gas and fee accounting, the block hash lookup and wallet derivation paths.  `dafny verify
dfyconfig.toml` verifies the project.

| file | models |
|---|---|
| `ChainTree.dfy` | headers linked by an injective symbolic hash, total difficulty, the reference fork choice |
| `HeaderChain.dfy` | importing, rewinding and ancestor lookup of `core/headerchain.go` |
| `BlockChain.dfy` | reorganisations and head writes of `core/blockchain.go` |
| `ChainIndexer.dfy` | the section indexer of `core/chain_indexer.go` as a state machine and as an object |
| `Feed.dfy` | `event/feed.go`, on an array changed in place |
| `Heap.dfy`, `TxSortedMap.dfy`, `TxList.dfy`, `TxPricedList.dfy` | the containers of `core/tx_list.go` |
| `PoolState.dfy`, `PoolSteps.dfy`, `PoolTruncation.dfy` | what the pool stores and what its operations do to one account, as values |
| `TxPool.dfy` | the pool of `core/tx_pool.go` with the virtual nonces of `core/tx_noncer.go` |
| `PoolCases.dfy` | runs of the pool that end above its limit or with a stale virtual nonce |
| `PoolReset.dfy` | which transactions a change of head brings back |
| `ReorgScheduler.dfy` | the loop that schedules the pool's maintenance runs |
| `StateTransition.dfy` | `core/state_transition.go`, `core/state_processor.go`, `core/gaspool.go` |
| `BlockHashes.dfy` | the memoised hash lookup of `core/evm.go` |
| `DerivationPath.dfy` | `accounts/hd.go` |

Code that changes things step by step is a class or a method with loops, proved against functions on
values; what the system promises is then proved of those functions and of whole runs.

**How the outside appears.**  Hashes are a free constructor over headers, and a transaction is its own
hash.  The database is a set of maps; batches are written as one assignment.  Clocks, random choices
(ties in fork choice, map iteration order, which channel is ready) are parameters or arbitrary choices, so
every statement holds for all of them.  Chain state, balances, signatures and intrinsic gas reach the pool
as parameters.  The virtual machine is a function that conserves the total balance, does not overdraw and
does not make gas.  Locks make each locked region one atomic step; the indexer, the feed and the scheduler,
where threads meet, are modelled step by step.

**Where the code does less than one might expect.**  Each of these has a statement that says, for all inputs, when
the property holds, and all but the last two a lemma or a run that shows a failing case:

- Importing a batch of known headers that wins a tie moves the head without rewriting the index
  (`StaleReorg`, `StaleReorgHappens`).
- A reorganisation onto a single block below the old head leaves an entry above the new head, and a
  transaction that occurs both below the fork and in the abandoned branch can lose its lookup entry
  (`IndexCondition`, `LookupCondition`, `ShortReorgBreaksIndex`, `RepeatedTxLosesEntry`).  The second needs a
  transaction that repeats along one chain.  Executed blocks have none, since the nonce check refuses it, and then
  the lookup entries are always right (`NoRepeatsKeepLookup`, `WriteExecutedRun`).
- Indexed sections can fall below a checkpoint: when an earlier section that was being processed ends, and when
  the backend cannot be reset (`Undoes`, `CheckpointUndone`).
- After a chain reorganisation that brings transactions back, the pool can keep a pending transaction behind a
  gap, because demotion only looks at the front of a list (`GapLeft`, `ReorgLeavesGap`).
- Making room for a reinjected transaction can evict a pending one that the chain has moved past; its account's
  virtual nonce then falls below the chain's, and maintenance does not mend that (`RemoveSinks`,
  `EvictionLeavesStaleNonce`; a reset in which it happens is `ReinjectionEvicts`).
- A transaction that leaves the pool and comes back before the price heaps are rebuilt has two entries; evicting
  both counts its slots twice, and the pool can end up over its limit (`Single`, `Rejoin`, `DroppedTwice`; a run
  from an empty pool to one above its limit is `OverTheLimit`).
- With the base fee check disabled an accepted message with zero caps debits the miner
  (`EffectLeavesNoDebt`, `UncheckedFeesOverdraw`).
- A replacement that is refused after the pool made room for it does not bring the evicted transactions back
  (`Add`, `RoomMade`).
- Asked for an ancestor of the zero hash above the head, `GetAncestor` takes the missing index entry for a
  match and answers from the index.

Whatever happens to a pool, an account's pending list starts at the chain's nonce and is affordable throughout, and an
account with nothing pending has no virtual nonce above the chain's (`Fronted`).  For that reason demotion under an
unchanged state, as in a reset that cannot load the new one, never changes anything: the condition of `RefreshedIff`
and `RefreshInPlace` is always met in a run of the pool.

Rewinding to a height at or above the head does nothing, even if side forks reach higher.  Gas bought before a
message turns out to lack intrinsic gas is not handed back; the block is invalid anyway.

Where comment and code differ the code is modelled: the queue is said to lose its oldest transactions, but
accounts with the latest heartbeat are emptied first; after CIP-1 a contract creation is charged like a call,
and before it a call has no base charge.

## Model

| member | source | states |
|---|---|---|
| `ChainTree.InsertKeepsTree` | core/headerchain.go:149-301 | inserting a batch keeps the header tree rooted with its head a tip, unless it moves the head onto an old header |
| `ChainTree.InsertKeepsHeaviest` | core/headerchain.go:149-301 | fork choice keeps the head at maximal total difficulty among all stored headers |
| `ChainTree.ForkChoiceOverRuns` | core/headerchain.go:149-301 | over every run of imports from genesis the head is a heaviest stored header and a tip, and every header of every batch whose parent was known is stored at the end |
| `ChainTree.KnownPrefix` | core/headerchain.go:182-198 | the already known headers of a contiguous batch form a prefix of it |
| `ChainTree.WriteIndexIsCanonical` | core/headerchain.go:261-276 | writing the entries of a branch over an index that agrees below it gives exactly the new head's ancestry |
| `ChainTree.RewindKeepsTree` | core/headerchain.go:563-640 | cutting all forks at a height leaves a well-formed tree whose head is the old head's ancestor |
| `HeaderChainModel.HeaderChain.constructor` | core/headerchain.go:79-116 | a chain of genesis alone satisfies the invariant |
| `HeaderChainModel.HeaderChain.StageHeaders` | core/headerchain.go:167-200 | exactly the unknown suffix of the batch is written, with path sums as total difficulties; the first insertion index separates known from new |
| `HeaderChainModel.HeaderChain.ClearAbove` | core/headerchain.go:240-247 | all index entries above the new head are deleted |
| `HeaderChainModel.HeaderChain.WriteBack` | core/headerchain.go:248-260 | stale entries below the batch are overwritten with the ancestry of its parent, and no header lookup on the way fails |
| `HeaderChainModel.HeaderChain.Reindex` | core/headerchain.go:232-276 | if anything was inserted the index becomes the ancestry of the batch's last header; otherwise only the part below the batch is right |
| `HeaderChainModel.HeaderChain.CommitImport` | core/headerchain.go:207-289 | head, markers and index move exactly if the tip is preferred; the invariant survives if and only if the import is not a stale reorg |
| `HeaderChainModel.HeaderChain.WriteHeaders` | core/headerchain.go:149-301 | the stored tree and head follow the reference fork choice; ignored and imported counts, status and errors are exact; the index equals the head's ancestry afterwards if and only if this was not a stale reorg |
| `HeaderChainModel.HeaderChain.ImportRun` | core/headerchain.go:149-301 | over every run without a stale reorg the index is exactly the ancestry of a heaviest header |
| `HeaderChainModel.StaleReorgHappens` | core/headerchain.go:261-283 | a concrete batch of known headers that moves the head and leaves the index behind |
| `HeaderChainModel.HeaderChain.GetAncestor` | core/headerchain.go:425-457 | a non-empty answer is the k-step parent walk and charges the budget for the non-canonical part only; empty answers arise exactly from k > number, a missing header or an exhausted budget; the zero hash above the head is answered from the index |
| `HeaderChainModel.HeaderChain.WalkAncestors` | core/headerchain.go:436-456 | the walking loop of the same, for every k |
| `HeaderChainModel.HeaderChain.HeightsFrom` | core/headerchain.go:603-612 | the heights wiped first are all populated heights above the head, highest first, and the head's own |
| `HeaderChainModel.HeaderChain.WipeRound` | core/headerchain.go:603-630 | a round at a height leaves exactly the headers, difficulties and entries below it |
| `HeaderChainModel.HeaderChain.RewindLoop` | core/headerchain.go:569-631 | the head walks down to the target, which the callback may force lower, while the deletions add up to everything above it |
| `HeaderChainModel.HeaderChain.SetHead` | core/headerchain.go:563-640 | the head becomes the old head's ancestor at the target; no header, difficulty or entry of any fork remains above it and the index below is unchanged; at or above the head nothing changes |
| `HeaderChainModel.RewindTargetIsLowest` | core/headerchain.go:586-593 | the target of a rewind is the lowest height forced on the way down |
| `BlockChainModel.BlockChain.WalkDown` | core/blockchain.go:2149-2162 | walking a branch down collects exactly its blocks and fails exactly if one is missing |
| `BlockChainModel.BlockChain.FindFork` | core/blockchain.go:2149-2193 | the two branches above the highest common ancestor, or an error exactly if a block needed to reach it is missing |
| `BlockChainModel.ForkIsHighest` | core/blockchain.go:2169-2193 | two chains agree at a height if and only if it is not above their fork |
| `BlockChainModel.OneFork` | core/blockchain.go:2169-2193 | two chains have one fork height |
| `BlockChainModel.BlockChain.WriteHeadBlock` | core/blockchain.go:774-801 | index entry, transaction entries and head markers of a new head block |
| `BlockChainModel.BlockChain.RewriteIndexes` | core/blockchain.go:2210-2239 | what a reorganisation does to both indexes, for empty and non-empty new branches |
| `BlockChainModel.BlockChain.Reorg` | core/blockchain.go:2094-2256 | branches, indexes and failures of a reorganisation; on failure nothing changes |
| `BlockChainModel.IndexAfterReorg` | core/blockchain.go:2210-2239 | the index equals the new head's ancestry if and only if the new head is at least as high as the old one or two blocks above the fork |
| `BlockChainModel.LookupAfterReorg` | core/blockchain.go:2210-2227 | the transaction index is right if and only if every transaction of the abandoned branch that also sits below the fork is in the new branch |
| `BlockChainModel.ShortReorgBreaksIndex` | core/blockchain.go:2228-2236 | a one-block branch that wins against a longer one leaves a stale index entry |
| `BlockChainModel.RepeatedTxLosesEntry` | core/blockchain.go:2222-2227 | a transaction that sits in the abandoned block and in a block below the fork, above genesis, loses its entry; such a chain cannot come from executed blocks |
| `BlockChainModel.NoRepeatsKeepLookup` | core/blockchain.go:2210-2227 | if no transaction repeats along the abandoned chain, as the nonce check ensures of executed blocks, the transaction index is right after every reorganisation |
| `BlockChainModel.BlockChain.WriteKnownBlock` | core/blockchain.go:1426-1438 | making a stored block the head leaves each index right if and only if its condition on the two chains holds |
| `BlockChainModel.BlockChain.WriteBlockWithState` | core/blockchain.go:1450-1588 | storing a block, fork choice with its tie breaks, and the indexes right afterwards if and only if the same conditions hold |
| `BlockChainModel.BlockChain.WriteRun` | core/blockchain.go:1450-1588 | from genesis, over every run of blocks that meet the two conditions when they become the head, both indexes are those of the head's chain, the store and head are those of the reference fork choice, and no stored block is heavier |
| `BlockChainModel.ExecutedRunsKeepIndexes` | core/blockchain.go:1450-1588 | a run of blocks without repeated transactions meets both conditions throughout if every block that becomes the head is high enough |
| `BlockChainModel.BlockChain.WriteExecutedRun` | core/blockchain.go:1450-1588 | so over every such run both indexes, the store and the head are right; only the height condition is left |
| `ChainIndexerModel.ProcessedIsLinked` | core/chain_indexer.go:388-417 | a processed section is parent-linked from the previous head, however the chain moved between the reads |
| `ChainIndexerModel.CommitKeepsInv` | core/chain_indexer.go:350-353 | comparing the one previous head is enough to store the new one |
| `ChainIndexerModel.StepKeepsInv` | core/chain_indexer.go:243-382 | every atomic action keeps stored heads above the checkpoint parent-linked |
| `ChainIndexerModel.RunsKeepSectionsLinked` | core/chain_indexer.go:304-417 | in every interleaving the stored heads above the checkpoint form a parent-linked chain sampled every section |
| `ChainIndexerModel.LastCanonicalMeansAll` | core/chain_indexer.go:422-429 | if the last stored head is canonical then all above the checkpoint are |
| `ChainIndexerModel.VerifyKeepsLongestPrefix` | core/chain_indexer.go:422-429 | verification keeps exactly the longest canonical prefix |
| `ChainIndexerModel.CheckpointUndone` | core/chain_indexer.go:130-143 | a checkpoint added while an earlier section is processed is undone when that section ends |
| `ChainIndexerModel.StepKeepsCheckpoint` | core/chain_indexer.go:243-417 | from sections at or above the checkpoint a step keeps them there if and only if it is neither a failed backend reset nor the commit of a section that ends below the checkpoint |
| `ChainIndexerModel.RunsKeepCheckpoint` | core/chain_indexer.go:130-417 | a run stays at or above the checkpoint throughout if and only if none of its steps is one of these two |
| `ChainIndexerModel.ChainIndexer.SetValidSections` | core/chain_indexer.go:479-491 | the object computes the state machine's section count change |
| `ChainIndexerModel.ChainIndexer.VerifyLastHead` | core/chain_indexer.go:422-429 | the loop computes the reference verification |
| `ChainIndexerModel.ChainIndexer.NewHead` | core/chain_indexer.go:243-300 | head and reorg notifications as one atomic action |
| `ChainIndexerModel.ChainIndexer.AddCheckpoint` | core/chain_indexer.go:130-143 | checkpoints as one atomic action |
| `ChainIndexerModel.ChainIndexer.BeginUpdate` | core/chain_indexer.go:317-337 | the update loop up to the point where it releases the lock |
| `ChainIndexerModel.ChainIndexer.ProcessSection` | core/chain_indexer.go:388-417 | the processing loop computes the reference walk and yields a parent-linked run |
| `ChainIndexerModel.ChainIndexer.EndUpdate` | core/chain_indexer.go:348-369 | the update loop from the point where it holds the lock again |
| `FeedModel.Feed.Subscribe` | event/feed.go:72-92 | a subscription is accounted for once |
| `FeedModel.Feed.Find` | event/feed.go:213-220 | the first case holding a channel |
| `FeedModel.Feed.Delete` | event/feed.go:223-225 | in-place deletion equals removal from the sequence |
| `FeedModel.Feed.Deactivate` | event/feed.go:228-232 | in-place deactivation swaps the case behind the waiting prefix |
| `FeedModel.Feed.Remove` | event/feed.go:103-124 | removal outside a send takes out exactly one subscription, from inbox or cases |
| `FeedModel.DeliverKeepsBalance` | event/feed.go:159-165 | a delivery moves one case from waiting to served |
| `FeedModel.RemoveKeepsBalance` | event/feed.go:171-177 | a removal during a send is booked as before or after delivery |
| `FeedModel.Feed.TrySends` | event/feed.go:156-165 | the non-blocking pass delivers to an arbitrary subset of the waiting cases |
| `FeedModel.Feed.ServeRemoval` | event/feed.go:171-177 | an unsubscription during a send shrinks the waiting prefix exactly if the case still waited |
| `FeedModel.Feed.Send` | event/feed.go:128-190 | in every interleaving, with any number of subscriptions and departures meanwhile, the books balance in the end, nobody is waiting, and the number of deliveries is returned |
| `FeedModel.ExactlyOnce` | event/feed.go:128-190 | then a surviving subscription got the value exactly once and a removed one at most once, however often its channel is subscribed |
| `Heap.PushKeepsHeap` | core/tx_list.go:38-40 | pushing keeps the heap order and adds exactly one element |
| `Heap.RemoveAtKeepsHeap` | core/tx_list.go:168-185 | removing any position keeps the heap order |
| `Heap.InitMakesHeap` | core/tx_list.go:114-121 | rebuilding gives a heap of the same elements |
| `TxSortedMapModel.TxSortedMap.Put` | core/tx_list.go:73-79 | map, heap index and cache agree after an insertion |
| `TxSortedMapModel.TxSortedMap.Forward` | core/tx_list.go:84-98 | removes exactly what lies below the threshold and returns it in order |
| `TxSortedMapModel.TxSortedMap.Filter` | core/tx_list.go:105-112 | removes exactly what the predicate selects |
| `TxSortedMapModel.TxSortedMap.Reheap` | core/tx_list.go:114-121 | restores the index from the map |
| `TxSortedMapModel.TxSortedMap.Cap` | core/tx_list.go:143-164 | keeps exactly the lowest nonces and returns the others |
| `TxSortedMapModel.TxSortedMap.Remove` | core/tx_list.go:168-185 | deletes one nonce, wherever it sits in the heap |
| `TxSortedMapModel.TxSortedMap.Ready` | core/tx_list.go:194-209 | takes exactly the maximal consecutive run from the lowest nonce, if that starts in time |
| `TxSortedMapModel.TxSortedMap.Flatten` | core/tx_list.go:216-237 | the cache is exactly the values in nonce order |
| `TxSortedMapModel.TxSortedMap.LastElement` | core/tx_list.go:241-244 | the highest nonce |
| `TxListModel.FilterIsScan` | core/tx_list.go:330-359 | the short circuit on the cost and gas bounds gives what a full scan would, and the bounds stay bounds |
| `TxListModel.LowestCuts` | core/tx_list.go:346-356 | what a strict list keeps is what lies below the lowest unaffordable nonce |
| `TxListModel.StrictKeepsGapFree` | core/tx_list.go:317-381 | filtering, removing and forwarding a strict list open no gap |
| `TxListModel.CapKeepsGapFree` | core/tx_list.go:363-365 | capping opens no gap |
| `TxListModel.TxList.Add` | core/tx_list.go:279-312 | accepts a replacement exactly if both prices rise by the bump; map and bounds follow |
| `TxListModel.TxList.Filter` | core/tx_list.go:330-359 | computes the reference filter; removed and invalidated transactions are exactly the rest |
| `TxListModel.TxList.Remove` | core/tx_list.go:370-381 | computes the reference removal; a strict list returns what it invalidates |
| `TxPricedListModel.WorseOrder` | core/tx_list.go:429-453 | the price comparison is a strict weak order |
| `TxPricedListModel.TxPricedList.Put` | core/tx_list.go:500-506 | only remote transactions enter the urgent heap |
| `TxPricedListModel.TxPricedList.Removed` | core/tx_list.go:511-519 | the heaps are left alone while at most a quarter of the entries are counted as departed and rebuilt exactly otherwise; no remote transaction loses its last entry |
| `TxPricedListModel.TxPricedList.Underpriced` | core/tx_list.go:523-551 | true exactly if there is a live entry and the transaction is no better than any in either heap; no live entry is lost |
| `TxPricedListModel.TxPricedList.Discard` | core/tx_list.go:557-593 | returns live remotes only, no more than needed, and conserves live entries across heaps and result; an unforced request succeeds if and only if all live entries together cover it, and a failed one loses nothing; nothing left in the floating heap is worse than the last one taken; if the floating heap held nothing better than the urgent one, whatever both orders rank below a dropped entry is dropped too, with all its entries |
| `TxPricedListModel.LiveConserved` | core/tx_list.go:557-593 | the slots of all live entries are those still in the heaps plus those dropped |
| `TxPricedListModel.Rejoin` | core/tx_list.go:500-519 | a transaction that leaves and comes back before the heaps are rebuilt has two entries |
| `TxPricedListModel.TxPricedList.Reheap` | core/tx_list.go:596-618 | every remote once, the worst fifth rounded down in the floating heap under the urgent order |
| `TxPricedListModel.TxPricedList.SetBaseFee` | core/tx_list.go:622-625 | the heaps are exact for the new base fee |
| `TxPricedListModel.ConservedCovers` | core/tx_list.go:557-593 | conservation carries over that every remote has an entry |
| `PoolState.SetAccount` | core/tx_pool.go:1643-1790 | changing one account keeps all views in step if the lookup changes along |
| `PoolState.FilingKeepsConsistent` | core/tx_pool.go:690-716 | filing a new transaction, with its predecessor leaving the lookup |
| `PoolState.ShrinkingKeepsConsistent` | core/tx_pool.go:975-1021 | redistributing an account's transactions and dropping the rest |
| `PoolState.CapToIsCapped` | core/tx_list.go:143-164 | the lowest nonces of a list are what capping keeps |
| `PoolState.CappedIsCapTo` | core/tx_list.go:143-164 | and capping keeps nothing else: the list object and the pool's function agree |
| `PoolState.ReadyRunIsReady` | core/tx_list.go:192-211 | the run that the list object collects is exactly what the pool's functions call ready |
| `PoolState.DropFreesSlots` | core/tx_pool.go:676-688 | dropping transactions with one entry each frees exactly the slots they were counted for |
| `PoolState.DroppedTwice` | core/tx_pool.go:676-688 | if the only remote transaction has two entries, a request above its slots and up to twice that can be met, whatever meets it drops the transaction at least twice, and fewer slots are freed than asked for |
| `PoolState.CapStep` | core/tx_pool.go:1391-1391 | capping one lower loses exactly the highest nonce |
| `TxPoolModel.TxPool.constructor` | core/tx_pool.go:269-321 | an empty pool is valid, in step and fronted |
| `TxPoolModel.TxPool.LookupAdd` | core/tx_pool.go:1741-1753 | the lookup and its slot sum |
| `TxPoolModel.TxPool.LookupRemove` | core/tx_pool.go:1756-1773 | the lookup and its slot sum |
| `TxPoolModel.TxPool.RemoteToLocals` | core/tx_pool.go:1777-1790 | no transaction of a local account stays remote, and none is lost |
| `TxPoolModel.TxPool.Validate` | core/tx_pool.go:573-637 | a transaction passes if and only if it meets every check |
| `TxPoolModel.TxPool.EnqueueTx` | core/tx_pool.go:738-773 | queue, lookup and heaps after queueing, with and without touching the lookup |
| `TxPoolModel.TxPool.RemoveTx` | core/tx_pool.go:975-1021 | successors of a removed pending transaction go back to the queue, the virtual nonce falls, all views stay in step |
| `PoolSteps.RemoveKeepsContiguous` | core/tx_pool.go:975-1009 | and pending nonces stay contiguous |
| `TxPoolModel.TxPool.MakeRoom` | core/tx_pool.go:664-689 | both errors exactly; what the price heaps give up is removed one after the other and nothing else changes: only remote transactions go, none if it fails or there is room and some otherwise if there are any; if no remote transaction had two entries the newcomer fits afterwards, or it is local and no remote one is left; if all remote transactions together take fewer slots than are lacking it does not fit |
| `TxPoolModel.TxPool.Evict` | core/tx_pool.go:676-688 | what goes is what the price heaps gave up, and overflow is reported if and only if all live entries take fewer slots than are lacking |
| `PoolSteps.RemoveEachKeeps` | core/tx_pool.go:676-688 | removing what was picked, one after the other, takes exactly those out of the lookup and keeps every account in step with the chain |
| `PoolSteps.RemovalMakesRoom` | core/tx_pool.go:664-689 | and frees the slots that are lacking under the conditions stated for `MakeRoom` |
| `TxPoolModel.TxPool.Add` | core/tx_pool.go:646-733 | every error exactly, in order, the slot bound of the pool under the same condition, and on success the transaction in its list in place of what was at its nonce, its sender marked if it was queued as local; a refused replacement leaves the pool changed if and only if it was full and held a remote transaction |
| `PoolSteps.AdditionKeepsInStep` | core/tx_pool.go:646-733 | an addition, with whatever it evicts, keeps contiguity and the front of every pending list, and before maintenance ran the tie between virtual nonces and what was pending |
| `PoolCases.OverTheLimit` | core/tx_pool.go:664-689 | from an empty pool: fill it, raise the price floor above the cheapest transaction, lower it, add that transaction again and then a large one; the pool is above its limit |
| `PoolCases.OnlyTheWorst` | core/tx_pool.go:676-688 | two slots are asked for and the only worst transaction has two entries: nothing else is dropped |
| `PoolCases.SuchACast` | core/tx_pool.go:664-689 | transactions and a chain state as that run needs them exist |
| `PoolSteps.FilingKeepsContiguous` | core/tx_pool.go:690-719 | filing keeps pending nonces contiguous |
| `TxPoolModel.TxPool.PromoteTx` | core/tx_pool.go:791-821 | the three outcomes of promoting one transaction |
| `TxPoolModel.TxPool.PromoteAccount` | core/tx_pool.go:1296-1349 | one account promoted as the value-level step says, all views in step |
| `PoolSteps.PromoteKeepsContiguous` | core/tx_pool.go:1316-1323 | promotion starts at the virtual nonce and crosses no gap |
| `PoolSteps.QueueIsAhead` | core/tx_pool.go:1290-1325 | queued nonces lie at or above the virtual nonce |
| `TxPoolModel.TxPool.PromoteExecutables` | core/tx_pool.go:1290-1351 | every given account changes on its own, in any order |
| `TxPoolModel.TxPool.DemoteAccount` | core/tx_pool.go:1494-1541 | one account demoted as the value-level step says, all views in step |
| `TxPoolModel.TxPool.DemoteUnexecutables` | core/tx_pool.go:1492-1543 | every account with pending transactions changes on its own |
| `PoolSteps.RestoredIff` | core/tx_pool.go:1494-1541 | after a change of chain state, promotion and demotion line an account up with the new nonce if and only if no eviction took its virtual nonce below and no queued run stops short of an affordable pending transaction |
| `PoolSteps.TrackLeavesNoGap` | core/tx_pool.go:1494-1541 | an account in step with one chain state has no gap ahead under any other, forward or backward |
| `PoolSteps.RefreshedIff` | core/tx_pool.go:1494-1541 | under an unchanged state an account in step stays in line if and only if its first pending transaction is affordable, which it is in every run of the pool (`RefreshKeepsFronts`) |
| `PoolSteps.PromoteFronts` | core/tx_pool.go:1296-1349 | promotion keeps a pending list that starts at the chain's nonce, affordable throughout |
| `PoolSteps.DemoteIdle` | core/tx_pool.go:1494-1541 | demotion under an unchanged state changes nothing of such an account |
| `PoolSteps.RefreshFronts` | core/tx_pool.go:1494-1541 | after a change of state promotion and demotion leave every account like that, whatever was pending before |
| `PoolSteps.RemoveSinks` | core/tx_pool.go:998-1009 | a removal takes a virtual nonce below the chain's if and only if it takes a pending transaction from below it |
| `PoolSteps.EvictionUnlines` | core/tx_pool.go:676-688 | and then maintenance cannot line the account up |
| `PoolSteps.EvictionLeavesStaleNonce` | core/tx_pool.go:1270-1278 | a pool of one pending transaction, in step, that the chain moves past: if it is evicted before maintenance, maintenance does not line the account up |
| `PoolCases.ReinjectionEvicts` | core/tx_pool.go:1261-1278 | a reset that loads a state and reinjects one better transaction into a full pool evicts the pending one; the virtual nonce is then below the chain's and promotion and demotion do not line the account up |
| `PoolSteps.AtChainIff` | core/tx_pool.go:1261-1278 | once reinjection is over the virtual nonces are the chain's if and only if every transaction that was pending below the chain's nonce is still pending |
| `PoolSteps.RemoveKeepsInStep` | core/tx_pool.go:975-1009 | a removal keeps contiguity, the front of every pending list, freedom from gaps and the tie between virtual nonces and what was pending before a reset |
| `PoolSteps.FilingKeepsInStep` | core/tx_pool.go:690-719 | and so does filing a transaction that the chain state admits |
| `PoolSteps.ReorgLeavesGap` | core/tx_pool.go:1524-1537 | a reorganisation that brings back one of two transactions leaves a gap, since only the front is checked |
| `PoolTruncation.DropKeepsStep` | core/tx_pool.go:1391-1401 | a dropped highest transaction opens no gap and leaves the first one, and the virtual nonce follows |
| `PoolTruncation.RoundFacts` | core/tx_pool.go:1388-1407 | a round of drops takes every offender down one level and the counter with it |
| `TxPoolModel.TxPool.Equalize` | core/tx_pool.go:1386-1435 | rounds end within the limit or at the threshold; no higher level would have fitted |
| `TxPoolModel.TxPool.TruncatePending` | core/tx_pool.go:1356-1438 | every non-local list is cut to one common level, at least the allowance; the total is within the limit or the level is the allowance; no higher level would have fitted; the counter is the true total |
| `PoolTruncation.LevelSpares` | core/tx_pool.go:1356-1438 | local accounts and small senders lose nothing, nobody is cut below the allowance, and only highest nonces go |
| `TxPoolModel.TxPool.TruncateQueue` | core/tx_pool.go:1441-1483 | exactly the excess goes or only local queues remain; local queues are untouched, lists lose their highest nonces, latest heartbeats first |
| `TxPoolModel.TxPool.SetGasPrice` | core/tx_pool.go:431-448 | raising the floor drops exactly the remote transactions below it |
| `TxPoolModel.TxPool.Reset` | core/tx_pool.go:1261-1278 | the new state; a state that cannot be loaded changes nothing; through reinjection pending lists stay free of gaps and virtual nonces tied to what was pending, nothing but old and reinjected transactions is in the pool, the virtual nonces are the chain's if everything fits, and one reinjected transaction that needs room in a full pool evicts something |
| `PoolReset.Collect` | core/tx_pool.go:1231-1244 | walking a branch down collects exactly its transactions and fails exactly if a block is missing |
| `PoolReset.Meet` | core/tx_pool.go:1245-1256 | two branches of one height are walked to their fork, or the walk fails exactly if a block is missing |
| `PoolReset.Reinject` | core/tx_pool.go:1197-1260 | what is taken back after a change of head: nothing for extensions, deep changes and rewinds, otherwise exactly the transactions of the abandoned branch that the new one lacks; aborts exactly if a needed block is missing |
| `PoolReset.NothingLost` | core/tx_pool.go:1257-1257 | every transaction of the abandoned chain is on the new chain or reinjected |
| `TxPoolModel.TxPool.SettleNonces` | core/tx_pool.go:1171-1175 | virtual nonces past the highest pending nonce |
| `PoolTruncation.SettledTracks` | core/tx_pool.go:1171-1175 | which makes lined-up lists contiguous up to the virtual nonce |
| `PoolTruncation.RefreshLinesUp` | core/tx_pool.go:1148-1166 | after a reset all accounts line up if and only if no eviction took a virtual nonce below the chain's and no account has a gap ahead |
| `PoolTruncation.RefreshInPlace` | core/tx_pool.go:1148-1166 | if the new state cannot be loaded, exactly if every first pending transaction is affordable, which it is in every run of the pool (`RefreshKeepsFronts`) |
| `PoolTruncation.RefreshKeepsFronts` | core/tx_pool.go:1148-1166 | in a fronted pool the first pending transactions are affordable, a refresh under an unchanged state keeps the pool fronted, and contiguous lists stay in line |
| `PoolTruncation.RefreshedFronts` | core/tx_pool.go:1148-1166 | after another state is loaded a refresh makes every pool fronted |
| `PoolTruncation.DemotedIdle` | core/tx_pool.go:1492-1543 | demotion on its own keeps a fronted pool and its contiguity |
| `PoolTruncation.SettledFronts` | core/tx_pool.go:1171-1175 | settling the virtual nonces keeps a pool fronted |
| `PoolTruncation.TrackedIsReady` | core/tx_pool.go:1148-1166 | a pool in step with the chain has no gap ahead of any other state |
| `TxPoolModel.TxPool.RunReorg` | core/tx_pool.go:1126-1193 | one maintenance run: what was reinjected, promoted or refreshed, and the level and queue trimming that followed, with the limits.  From contiguous lists all accounts are in line before the trimming if there is no reset or one with nothing to reinject, and if the state cannot be loaded exactly if every first pending transaction is affordable, which in a fronted pool it is; for any reset that loads its state, from gap-free lists, exactly if no transaction pending below the chain was evicted and no gap lies ahead.  Being in line then makes the lists contiguous afterwards, and the pool is fronted afterwards after a loaded state or from a fronted one |
| `TxPoolModel.TxPool.Operate` | core/tx_pool.go:646-1543 | over every run of operations, whatever they are, all views agree and every pending list starts at the chain's nonce, affordable throughout, with no virtual nonce above the chain's where nothing is pending; as long as no reset that loads a state has something to reinject every pending list also covers exactly the nonces from the chain's to the virtual one, however the chain moves |
| `PoolSteps.DropsInParts` | core/tx_pool.go:1497-1537 | what demotion drops is the old and the unaffordable, and nothing else |
| `PoolSteps.GoneInParts` | core/tx_pool.go:1300-1339 | what promotion drops is the old, the unaffordable and the excess, and nothing else |
| `PoolSteps.NoncerLaws` | core/tx_noncer.go:45-79 | reading fills in the chain's nonce without changing it, setting affects one account, lowering takes the minimum |
| `PoolSteps.SetTrack` | core/tx_pool.go:791-821 | contiguity survives a change of one account's lists and virtual nonce that keeps that account on track |
| `ReorgScheduler.StepKeepsInv` | core/tx_pool.go:1056-1123 | every step hands each run exactly what was accepted for it |
| `ReorgScheduler.RunsKeepInv` | core/tx_pool.go:1056-1123 | in every run of the scheduler |
| `ReorgScheduler.ClosedMeansServed` | core/tx_pool.go:1025-1043 | a requester's channel closes only after a run that does what it asked has ended, or at shutdown |
| `ReorgScheduler.OneRunAtATime` | core/tx_pool.go:1068-1079 | before a run starts all earlier ones have ended |
| `ReorgScheduler.NobodyIsForgotten` | core/tx_pool.go:1056-1123 | an open channel belongs to the active run or to the next, which already holds the request; after shutdown none is open |
| `ReorgScheduler.EndStartsNext` | core/tx_pool.go:1068-1079 | once the active run ends the next starts with everything collected |
| `ReorgScheduler.ResetsTelescope` | core/tx_pool.go:1082-1090 | coalesced resets lead through the same heads as the requests |
| `ReorgScheduler.RunsTelescope` | core/tx_pool.go:345-348 | if resets are requested head to head, runs execute them head to head and end at the last requested head |
| `ReorgScheduler.ScheduleReorgLoop` | core/tx_pool.go:1056-1123 | the loop with its local variables computes the state machine |
| `StateTransitionModel.GuardIsExact` | core/state_transition.go:139-153 | the division guard detects exactly the overflowing sums |
| `StateTransitionModel.IntrinsicGas` | core/state_transition.go:118-160 | the intrinsic gas, refused exactly if the data term overflows, wrapping in the access list term |
| `StateTransitionModel.GasPool.AddGas` | core/gaspool.go:29-35 | adding within the width |
| `StateTransitionModel.GasPool.SubGas` | core/gaspool.go:39-45 | refused exactly if not enough is left, and then unchanged |
| `StateTransitionModel.Screen` | core/state_transition.go:218-258 | what a message that passes the checks satisfies |
| `StateTransitionModel.PriceSplits` | core/state_transition.go:335-337 | effective price and effective tip always differ by the base fee |
| `StateTransitionModel.StateTransition.BuyGas` | core/state_transition.go:196-216 | the two failures, and the prepayment otherwise |
| `StateTransitionModel.StateTransition.RefundGas` | core/state_transition.go:346-361 | refund of at most a fifth of the gas used, paid at the original price, and the gas returned to the block without overflow |
| `StateTransitionModel.StateTransition.TransitionDb` | core/state_transition.go:275-344 | every rejection exactly, the effect otherwise, and the block loses exactly the gas used |
| `StateTransitionModel.TransferCannotFail` | core/state_transition.go:305-308 | the transfer check after buying gas cannot fail |
| `StateTransitionModel.EffectBurnsBaseFee` | core/state_transition.go:275-344 | the total balance falls by exactly gas used times base fee, and at least four fifths of the intrinsic gas are charged |
| `StateTransitionModel.SettlementDebt` | core/state_transition.go:331-356 | nobody owes anything after a settlement if and only if the miner's balance covers a negative tip |
| `StateTransitionModel.EffectLeavesNoDebt` | core/state_transition.go:275-344 | an accepted message leaves nobody in debt if and only if its fees were checked or the miner can pay the base fee of the gas used |
| `StateTransitionModel.UncheckedFeesOverdraw` | core/state_transition.go:237-238 | a message with zero caps that is accepted without base fee check and leaves the miner owing |
| `StateTransitionModel.AsMessage` | core/types/transaction.go:602-622 | a message exactly for a good signature, with every field of the transaction, at the effective price |
| `StateTransitionModel.ApplyTransaction` | core/state_processor.go:94-137 | one transaction of a block and its receipt |
| `StateTransitionModel.Process` | core/state_processor.go:58-92 | all transactions in order, or the first that cannot be applied |
| `StateTransitionModel.BlocksBalance` | core/state_processor.go:58-123 | after every transaction of every block gas left and gas used make up the limit, receipts carry prefix sums, the accounts lost the base fee of the gas used, nobody is in debt |
| `BlockHashes.HashLookup.GetHash` | core/evm.go:76-107 | whatever was asked before, the answer is that of an uncached parent walk; the zero hash at or above the reference height and past a missing header |
| `BlockHashes.CompleteChainAnswers` | core/evm.go:76-107 | on a complete chain that is the ancestor's hash |
| `BlockHashes.WalkExtends` | core/evm.go:93-104 | the cache stays the list of parent links followed |
| `BlockHashes.CachedIsRight` | core/evm.go:86-88 | the wrapping index into the cache is right, also for queries at or above the reference |
| `DerivationPathModel.ParseDerivationPath` | accounts/hd.go:68-118 | the parser loop computes the reference parse, errors included |
| `DerivationPathModel.PathString` | accounts/hd.go:122-136 | the printer loop computes the reference print |
| `DerivationPathModel.NumberRoundTrip` | accounts/hd.go:100-104 | printed decimals are read back |
| `DerivationPathModel.RoundTrip` | accounts/hd.go:68-136 | every non-empty path is what its printed form parses to; the empty one is refused |
| `DerivationPathModel.ReparseIsStable` | accounts/hd.go:68-136 | printing and reparsing any accepted string is stable |
| `DerivationPathModel.SpacesIgnored` | accounts/hd.go:90-99 | white space around components is ignored |
| `DerivationPathModel.PathIterator.Next` | accounts/hd.go:156-180 | one component is incremented in place, wrapping around |
| `DerivationPathModel.Iterate` | accounts/hd.go:156-180 | the calls return the base path with its component raised by 0, 1, 2, … |

## Left out

- Fast sync, the ancient store and the deletion callback of `SetHead`.
- The caches of headers, difficulties and numbers: an import that is interrupted while staging has already put headers into them, and header lookups consult them first, so "unchanged" there is about the database and the head.
- Logs, events, metrics, the journal, and everything that is announced after a reorganisation.
- Header validation: batches are assumed linked, numbered consecutively and of positive difficulty, as verification ensures.
- The children of an indexer and what its backend computes.
- The value sent by a feed, its type checks and the panics on misuse.
- RunReorg: that accounts are in line before the trimming implies contiguity afterwards, not the other way round, since trimming can happen to remove what lies behind a gap.
- Reset takes the transactions to reinject as a parameter; `Reinject` says which hashes they have. The depth of a change of head is an integer there, not a floating-point difference.
- Heartbeats are a parameter of `TruncateQueue`; how operations refresh them and the eviction of idle accounts are not modelled.
- Removed: `stales` only decides when the heaps are rebuilt; it is not an exact count of stale entries in the code either, so no relation to the heaps is stated.
- MakeRoom: that no remote transaction has two entries is sufficient for the newcomer to fit, not necessary, since what is evicted need not be among those with two.
- Discard: which of two entries goes first is stated for entries that both price orders rank alike, and only if the floating heap starts with nothing better than the urgent one; otherwise entries pass from the urgent to the floating heap by the ratio of the two lengths.
- TxPool works on the nonce-to-transaction maps of its lists; that the list objects compute these maps is proved in `TxList.dfy` and `TxSortedMap.dfy`, where the heap, the cache and the bounds are, and that the pool's functions are the same maps by `CappedIsCapTo` and `ReadyRunIsReady`.
- The message carried by a maintenance run (`txFeed`), and the promoted transactions it lists.
- Execute: what the machine does to nonces and code is up to the machine; only balances and gas are constrained.
- Block rewards and uncles, added by the consensus engine after the transactions.
- `Process` assumes that data is shorter than 2^64 bytes, as any slice is.
- Reading numbers follows the documented grammar of Go's `big.Int.SetString` with base 0, which is not part of the repository.
- JSON forms of derivation paths, and light-client, network, RPC and console code.
