# Taiyuechain core: a verified model

A Dafny model of the parts of the Taiyuechain node (a descendant of go-ethereum) whose
correctness rests on an argument rather than on one function body. `dafny verify
dfyconfig.toml` checks the whole project.

| file | models |
|---|---|
| `Heap.dfy` | the binary heap and sort the rest builds on |
| `Tx.dfy` | transactions, and the chain state a pool sees |
| `SortedMap.dfy`, `TxList.dfy`, `PricedList.dfy` | the pool's nonce-sorted map, account list and lazily cleaned price heap (`core/tx_list.go`) |
| `PoolState.dfy`, `SlotLimits.dfy`, `Heartbeats.dfy`, `TxPool.dfy` | the transaction pool (`core/tx_pool.go`) |
| `ChainIndexer.dfy` | section indexing against reorganisations, and trees of indexers (`core/chain_indexer.go`) |
| `Feed.dfy` | one-to-many delivery over an array that is changed while it is being worked through (`event/feed.go`) |
| `Reorg.dfy`, `Ancestors.dfy` | chain reorganisation and ancestor lookups (`core/blockchain.go`, `core/headerchain.go`, `core/evm.go`) |
| `Gas.dfy`, `Receipts.dfy` | gas over a transaction and over a block (`core/state_transition.go`, `core/state_processor.go`, `core/gaspool.go`) |
| `Protocols.dfy`, `Dial.dfy` | protocol multiplexing and the dial scheduler (`p2p/`) |
| `Reservoir.dfy` | the exponentially decaying sample (`metrics/sample.go`) |
| `HdPath.dfy` | derivation paths (`accounts/hd.go`) |

How the model reads the program:

- What mutates state is a class with a loop where the source has one; its contract ties
  it to a function or predicate on values, and the theorems are about those.
- Go's 64-bit arithmetic is explicit (`AddWrap`, `SubWrap`, `Prev`) wherever it
  can wrap. Block hashes and transaction hashes are taken to be free of collisions, so a
  transaction is its own hash.
- Concurrency is a state machine: an indexer step is what happens between two lock
  operations, and each single write where the source writes without the lock. What other goroutines do before each attempt of `Feed.Send`, which channels
  are ready and which case a `select` picks is an environment that the contract is a
  function of, and so is what each run of the virtual machine does. The order of a map
  and what a bounded cache drops are arbitrary choices.
- Clocks, randomness, the network, signatures and database reads are parameters.

Where code and comments disagree the model follows the code:

- `core/tx_pool.go:1183-1221` says the oldest queues are dropped first; the accounts are
  popped from the end of a list sorted by heartbeat, so the most recently active go first.
- `core/tx_pool.go:169` says the lifetime is how long non-executable transactions are
  queued. It is compared with the last promotion (`core/tx_pool.go:387`), and an account
  has a heartbeat exactly while it has pending transactions (`TxPools.TxPool.RunAll`), so
  a remote queue of an account with nothing pending goes at the first eviction
  (`TxPools.TxPool.Evict`).
- `core/tx_pool.go:670-673` applies the price floor to local transactions too, although
  locals are exempt everywhere else.

Results that hold only under an exact condition:

- Promotion keeps the virtual nonce right if and only if the promoted nonce is not
  2^64 - 1 (`PoolStates.AppendKeepsRuns`, `PoolStates.LastNonceBreaksRun`).
- Demotion leaves a gap-free pending list unless the list has the chain's nonce and misses
  one after it, before the first that is filtered out (`TxPools.DemotionRoots`,
  `TxPools.GapIsKept`).
- Skipping the filter's scan is right if and only if every foreign payer can afford its
  gas (`TxLists.ShortCircuitAgrees`, `TxLists.BrokePayerIsKept`).
- Making room in a full pool frees a place if every transaction has one entry in the
  price heap; one that left and came back has two (`TxPools.TxPool.MakeRoom`,
  `PricedLists.DroppedTwice`).
- A reorganisation that takes stored sections back reaches the child indexers except
  exactly with sections of one block when only the last section is taken back
  (`Indexers.ReorgReachesChildren`, `Indexers.OneBlockSectionIsMissed`).
- The indexer's section heads are those of its count if no reorganisation takes sections
  back while a refused section clears them without the lock. If both do, they can end
  apart exactly when two or more sections were stored (`Indexers.HeadsLinkedOverRuns`,
  `Indexers.OverlapBreaksIff`, `Indexers.RefusalCanBreak`).
- Message codes arrive at the protocol that wrote them if and only if all codes of the
  table fit in 64 bits (`Protocols.SoundIffFits`, `Protocols.LongestIsLost`).
- `GetAncestor` answers with a hash that is no ancestor if and only if its walk, through
  cached headers, meets the zero hash at a number past the canonical chain while the
  ancestor's number lies in it: the zero hash itself, or a hash given with too high a
  number (`Ancestors.HeaderChain.GetAncestor`, `Ancestors.ZeroHashIsAnswered`,
  `Ancestors.GenesisIsItsOwnAncestor`).
- The sections complete below a head are the greatest number that is confirmed, except
  under head 2^64 - 1 without confirmations, where the count wraps to none
  (`Indexers.CompleteSections`, `Indexers.HighestHeadWraps`).
- A transaction that went through cannot go through again unless the machine set its
  sender's nonce or, exactly, it is a creation whose sender lacked the funds for value and
  extra fee together: such a creation is no error, and the nonce is raised only after that
  test (`GasAccounting.StaysValidIff`, `BlockGas.RefusedCreationComesTwice`).
- A reservoir of size zero panics on the first update, and only that one
  (`Reservoirs.ExpDecaySample.Update`).
- A printed path parses back if and only if it is not empty (`DerivationPaths.PathRoundTrip`).

## Model

| member | source | states |
|---|---|---|
| `SortedMaps.TxSortedMap.Put` | core/tx_list.go:75-81 | updates the map at one nonce; index stays a heap of each nonce once, cache dropped |
| `SortedMaps.TxSortedMap.Forward` | core/tx_list.go:86-100 | takes out exactly the nonces below the threshold, in ascending order, and a kept cache is still the sorted contents |
| `SortedMaps.TxSortedMap.Filter` | core/tx_list.go:104-124 | takes out exactly the transactions satisfying the filter and restores the index |
| `SortedMaps.TxSortedMap.Cap` | core/tx_list.go:128-149 | keeps exactly the lowest nonces up to the limit; a kept cache is still the sorted contents |
| `SortedMaps.TxSortedMap.Remove` | core/tx_list.go:153-170 | takes out one nonce and tells whether it was stored |
| `SortedMaps.TxSortedMap.Ready` | core/tx_list.go:179-194 | takes out the run of consecutive nonces from the lowest one unless that lies after the start |
| `SortedMaps.TxSortedMap.Flatten` | core/tx_list.go:204-217 | the contents in nonce order, from the cache if there is one |
| `SortedMaps.ReadyIsMaximalRun` | core/tx_list.go:179-194 | what Ready hands out is a run of consecutive nonces from the lowest that cannot be extended |
| `SortedMaps.AscendingListingIsSorted` | core/tx_list.go:204-217 | an ascending listing of the map is its sorted contents, so a sorted cache is unique |
| `SortedMaps.SortedSplits` | core/tx_list.go:86-100 | cutting the map at a nonce cuts its sorted contents at one place (why Forward may slice the cache) |
| `SortedMaps.LowestStep` | core/tx_list.go:128-149 | capping by one more drops the highest nonce (why Cap may slice the cache) |
| `SortedMaps.RootIsLeastNonce` | core/tx_list.go:86-100 | the root of the index is the lowest stored nonce |
| `TxLists.TxList.Overlaps` | core/tx_list.go:243-245 | whether the nonce is taken |
| `TxLists.TxList.Add` | core/tx_list.go:252-273 | inserts exactly if the nonce is free or the new price is above the old one and, to within one unit, above it by the bump in percent; returns what it replaced; raises the caps |
| `TxLists.ReplacementsRaise` | core/tx_list.go:252-262 | a slot taken over k times ends at a price at least k times the bump above the first, and at least k above it |
| `TxLists.TxList.Forward` | core/tx_list.go:278-280 | removes the nonces below a threshold |
| `TxLists.TxList.Filter` | core/tx_list.go:291-329 | returns what the specified division removes and invalidates, keeps the rest, lowers the caps, and skips the scan when the caps allow |
| `TxLists.TxList.Cap` | core/tx_list.go:333-335 | keeps the lowest nonces up to the limit |
| `TxLists.TxList.Remove` | core/tx_list.go:340-351 | removes a nonce; a strict list also gives up and returns every later one |
| `TxLists.TxList.Ready` | core/tx_list.go:360-362 | hands out the maximal run of consecutive nonces |
| `TxLists.TxList.Flatten` | core/tx_list.go:377-379 | the contents in nonce order |
| `TxLists.FilterDivides` | core/tx_list.go:291-329 | removed, invalidated and kept are disjoint and make up the list; a strict list keeps nothing above what it removes |
| `TxLists.FilterKeepsRun` | core/tx_list.go:291-329 | on a strict gap-free list what is kept is a gap-free prefix |
| `TxLists.AddKeepsCapsBound` | core/tx_list.go:252-273 | adding keeps every gas limit and every charge to the sender within the caps, a negative gas cost of another payer aside |
| `TxLists.FilterKeepsCapsBound` | core/tx_list.go:296-314 | so does filtering, which lowers the caps |
| `TxLists.SublistKeepsCapsBound` | core/tx_list.go:278-280 | so does dropping transactions |
| `TxLists.ShortCircuitAgrees` | core/tx_list.go:292-295 | for well-formed transactions, when the caps allow the scan to be skipped, skipping it is right if and only if every foreign payer can afford its gas |
| `TxLists.SelfPaidShortCircuit` | core/tx_list.go:292-295 | for self-paid transactions skipping the scan is always right, negative prices included |
| `TxLists.FilterLeavesPayable` | core/tx_list.go:291-329 | by either path, no self-paid transaction that Filter leaves is unpayable; every list the code builds meets its condition (it is part of the lists' and the pool's invariant) |
| `TxLists.BrokePayerIsKept` | core/tx_list.go:292-295 | a concrete list on which the skipped scan would have removed a transaction whose foreign payer is broke |
| `PricedLists.PriceRankIsOrder` | core/tx_list.go:388-398 | the heap order is by price, then by higher nonce first |
| `PricedLists.TxPricedList.Put` | core/tx_list.go:429-431 | one more entry in the price heap, and no other change of the entries |
| `PricedLists.TxPricedList.Removed` | core/tx_list.go:436-451 | exactly when the stale count passes a quarter the heap is rebuilt from the pool, else it stays; no entry of a known transaction is ever lost |
| `PricedLists.TxPricedList.Cap` | core/tx_list.go:455-482 | hands out only known remote transactions below the threshold, and no known remote one below it stays; the stale count drops by exactly the other entries that go |
| `PricedLists.TxPricedList.Underpriced` | core/tx_list.go:486-508 | compares with the true minimum of the pool although the heap may be stale, loses no entry of a known transaction, and uncounts exactly the stale ones it drops |
| `PricedLists.TxPricedList.Discard` | core/tx_list.go:512-535 | takes out as many entries as asked, or all remote ones: only of known remote transactions, none better than a remote one that stays; every entry of a known transaction stays or is handed out; the stale count drops by exactly the others |
| `PricedLists.DropsRegistered` | core/tx_list.go:512-535 | what is dropped leaves an entry for every other known transaction, and no more entries than those and the counted stale ones |
| `PricedLists.DistinctMembers` | core/tx_list.go:512-535 | as many transactions leave as entries are handed out if none has two |
| `PricedLists.DroppedTwice` | core/tx_list.go:512-535 | after four are added, one is removed and added again, a count of two is used up by that one, so one transaction leaves where two were asked for |
| `PoolStates.PullQueued` | core/tx_pool.go:1068-1091 | what is taken out of a queued list is in neither list, and the books stay a partition |
| `PoolStates.PullPending` | core/tx_pool.go:1228-1262 | the same for pending lists |
| `PoolStates.PlaceQueued` | core/tx_pool.go:799-822 | a transaction in no list may enter the queue, replacing the one with its nonce or not |
| `PoolStates.PlacePending` | core/tx_pool.go:840-873 | the same for pending lists |
| `PoolStates.WhereItIs` | core/tx_pool.go:1007-1046 | a known transaction is found by its sender and nonce in exactly one of the two lists |
| `PoolStates.CutKeepsRuns` | core/tx_pool.go:1020-1038 | cutting a pending run and lowering the virtual nonce to the cut keeps every pending list the gap-free run from the chain nonce to the virtual nonce |
| `PoolStates.AppendKeepsRuns` | core/tx_pool.go:868-870 | appending at the virtual nonce keeps the runs if and only if the nonce is not the last 64-bit one (its successor wraps to zero) |
| `PoolStates.LastNonceBreaksRun` | core/tx_pool.go:868-870 | an account that uses the last 64-bit nonce is no run: its virtual nonce becomes zero |
| `PoolStates.VirtualFollowsLast` | core/tx_pool.go:868-870 | a contiguous account's virtual nonce is one after its last pending nonce, or the chain nonce if nothing is pending |
| `PoolStates.ReadyStartsAtVirtual` | core/tx_pool.go:1084-1091 | a promotable nonce of a contiguous account is exactly its virtual nonce |
| `PoolStates.ReadyDrains` | core/tx_pool.go:1084-1091 | taking the maximal run from the virtual nonce leaves nothing queued that could be promoted |
| `SlotLimits.WaterLine` | core/tx_pool.go:1112-1182 | at a water line a remote account that lost anything keeps exactly that many lowest nonces, others have at most that many, locals lose nothing |
| `SlotLimits.LevelStep` | core/tx_pool.go:1139-1157 | lowering the line by one drops the highest nonce of exactly the remote accounts above it |
| `SlotLimits.HuntLowers` | core/tx_pool.go:1127-1159 | the offenders found so far are exactly the accounts above the next threshold |
| `SlotLimits.TrimEnds` | core/tx_pool.go:1183-1222 | when nobody waits any more only local queues are left |
| `SlotLimits.TrimsHighest` | core/tx_pool.go:1210-1220 | the account that is trimmed last loses its highest nonces only, every other queue that is left is complete |
| `SlotLimits.AllIsTotal` | core/tx_pool.go:731 | the known transactions are as many as pending and queued ones together |
| `Heartbeats.StillInStep` | core/tx_pool.go:1022-1027 | when removals and demotions take heartbeats only with the last pending transaction, heartbeats stay in step with pending lists |
| `Heartbeats.GrowsInStep` | core/tx_pool.go:868-873 | so they do when promotion sets the heartbeat of exactly the accounts whose pending lists grow |
| `Heartbeats.BeatenChain` | core/tx_pool.go:1084-1091 | passes over accounts compose: exactly those whose pending lists changed over all of them have the new heartbeat |
| `TxPools.Validate` | core/tx_pool.go:635-705 | a transaction is admitted if and only if it keeps the rules that do not depend on the chain and would not be dropped from a list as stale or unpayable |
| `TxPools.RefusedForFirstBroken` | core/tx_pool.go:635-705 | the error names a rule if and only if the transaction breaks that rule and none of those looked at before it |
| `TxPools.Sanitize` | core/tx_pool.go:174-226 | each setting is kept or becomes its default (price limit 1000 when gas is charged, bump 10, slots 80 and 20480, queues 320 and 5120, three hours), all then work, and those that work are kept |
| `TxPools.PlacingIsSlotResult` | core/tx_pool.go:755-794 | whether a transaction gets its slot, which the two lists decide, depends only on the known transactions with its sender and nonce |
| `TxPools.SlotPrice` | core/tx_list.go:252-262 | a slot is granted if and only if the price is above that of its holder and, to within one unit, by the bump in percent |
| `TxPools.DecisionMeans` | core/tx_pool.go:715-794 | what any decision of Add does: the transaction is known afterwards exactly if accepted; nobody but the holder of its slot leaves unless a remote transaction finds the pool full, and no local one then; want of price refuses only below the floor or a remote transaction that outbids nobody in a full pool |
| `TxPools.UncontestedIsKept` | core/tx_pool.go:956-966 | in a batch that does not fill the pool every valid transaction whose slot no other known or given one has ends up known |
| `TxPools.AmpleIsRoomy` | core/tx_pool.go:1092-1222 | so few known transactions that no limit of the queue, the slots or an account is exceeded leave room wherever they are held |
| `TxPools.FilteredIsUsable` | core/tx_pool.go:1068-1083 | what forwarding and filtering leave of a list has no self-paid transaction that is stale or unpayable |
| `TxPools.DemotionRoots` | core/tx_pool.go:1228-1261 | what demotion leaves of a list is a gap-free run from the chain nonce unless the list has that nonce and misses one after it and before the first that is filtered out, and only then not |
| `TxPools.GapIsKept` | core/tx_pool.go:1254-1261 | a concrete list with a gap after the chain nonce that demotion leaves as it is |
| `TxPools.RecoversIff` | core/tx_pool.go:497-503 | after demotion and following each last nonce the pending lists are contiguous if and only if every demoted list is rooted at the chain nonce and accounts left without one have that as virtual nonce |
| `TxPools.TxPool.constructor` | core/tx_pool.go:268-293 | from any configuration an empty pool meets the invariant, with the sanitised price limit as its price |
| `TxPools.TxPool.CountOut` | core/tx_pool.go:1014-1018 | the transaction is unknown afterwards and the price heap still has an entry for every known one, and no more entries than known transactions and counted stale ones |
| `TxPools.TxPool.EnqueueTx` | core/tx_pool.go:799-822 | queues exactly if the list accepts it; the replaced transaction leaves; books and price heap kept |
| `TxPools.TxPool.PromoteTx` | core/tx_pool.go:840-873 | moves to pending exactly if the list accepts it and sets the virtual nonce to its successor; otherwise the transaction leaves |
| `TxPools.TxPool.Demote` | core/tx_pool.go:1249-1261 | every demoted transaction enters the queue: none is refused, none replaces another, none leaves the pool |
| `TxPools.TxPool.RemoveTx` | core/tx_pool.go:1007-1046 | exactly the given transaction leaves; its pending followers go back to the queue; runs stay contiguous; pending is untouched unless it was pending; the heartbeat goes with the last pending transaction and no other does |
| `TxPools.TxPool.DropUnusable` | core/tx_pool.go:1068-1083 | the account keeps exactly what forwarding to the chain nonce and filtering leave, with no useless self-paid transaction, and only stale or unpayable transactions leave the pool |
| `TxPools.TxPool.PromoteReady` | core/tx_pool.go:1084-1091 | a run is promoted nonce by nonce with none lost; the virtual nonce ends after it and the heartbeat is now, unless the run is empty |
| `TxPools.TxPool.PromoteQueued` | core/tx_pool.go:1084-1091 | nothing promotable stays queued for the account, and other accounts are untouched; it has a new heartbeat exactly if it gained pending transactions |
| `TxPools.TxPool.CapQueued` | core/tx_pool.go:1092-1105 | a remote account keeps exactly its lowest nonces up to the allowance; what leaves lies beyond a full queue; local transactions never leave here |
| `TxPools.TxPool.PromoteAccount` | core/tx_pool.go:1063-1106 | one account is drained and its queue has no useless self-paid transaction; others are untouched; what leaves is useless or lies beyond a full remote queue |
| `TxPools.TxPool.CutRound` | core/tx_pool.go:1141-1156 | one transaction from each offender lowers the water line by one |
| `TxPools.TxPool.LowerTo` | core/tx_pool.go:1136-1180 | stops at the highest line that fits, or at the floor |
| `TxPools.TxPool.EqualizePending` | core/tx_pool.go:1112-1182 | pending becomes the old lists cut at one water line at or above AccountSlots, within GlobalSlots unless the line is AccountSlots, and one higher would not fit; within GlobalSlots nothing changes |
| `TxPools.TxPool.SortByHeartbeat` | core/tx_pool.go:1189-1196 | lists each account once, least recently active first |
| `TxPools.TxPool.TrimQueue` | core/tx_pool.go:1183-1222 | queue total ends exactly at GlobalQueue or only local queues remain; within the limit nothing changes; local queues untouched; the most recently active remote accounts lose first; at most one queue is cut, at its highest nonces |
| `TxPools.TxPool.EnforceLimits` | core/tx_pool.go:1108-1222 | pending is cut at one water line and the queue trimmed in heartbeat order; no local transaction leaves, what was drained stays drained, heartbeats stay, and within both limits nothing leaves |
| `TxPools.TxPool.ForwardPending` | core/tx_pool.go:1233-1239 | drops exactly what the chain has passed |
| `TxPools.TxPool.FilterPending` | core/tx_pool.go:1240-1253 | only unpayable transactions leave, the ones after them are demoted, and what is kept is a gap-free part |
| `TxPools.TxPool.PostponeGap` | core/tx_pool.go:1254-1261 | a list that does not start at the chain nonce is demoted whole and nothing leaves the pool |
| `TxPools.TxPool.DemoteAccount` | core/tx_pool.go:1228-1268 | the list becomes exactly the specified demotion; a gap-free one becomes the gap-free run from the chain nonce; nothing useless and self-paid is left; only stale or unpayable transactions leave the pool |
| `TxPools.TxPool.DemoteUnexecutables` | core/tx_pool.go:1228-1268 | the same for every account: no self-paid transaction left pending is useless; exactly the accounts left with nothing pending lose their heartbeat |
| `TxPools.TxPool.PromoteEach` | core/tx_pool.go:1055-1106 | every given account is drained and has nothing useless and self-paid queued; what leaves is useless or lies beyond a full remote queue |
| `TxPools.TxPool.PromoteExecutables` | core/tx_pool.go:1051-1223 | given accounts (or all) are drained with nothing useless and self-paid queued; what leaves is useless, beyond a full remote queue, above the water line, or trimmed in heartbeat order; limits hold, locals lose only what is useless, and with room for all only the useless leave; contiguity and usability of pending kept |
| `TxPools.TxPool.MakeRoom` | core/tx_pool.go:731-754 | succeeds exactly if the transaction is local or dearer than the true minimum; drops remote ones only, none better than a remote one kept, and no more than needed; with single heap entries exactly as many as needed |
| `TxPools.TxPool.ReplacePendingTx` | core/tx_pool.go:755-780 | replaces exactly if the new price is above the old one and, to within one unit, by the bump in percent; the replaced one leaves; runs stay contiguous |
| `TxPools.TxPool.QueueNew` | core/tx_pool.go:781-794 | queues exactly if the queue accepts it |
| `TxPools.TxPool.Place` | core/tx_pool.go:755-794 | result and known transactions are as the transactions with the same sender and nonce decide |
| `TxPools.TxPool.Add` | core/tx_pool.go:715-794 | result and known transactions in every case, as a function of what was known before and, in a full pool, of what making room spared; accepted only if it outpays the holder of its slot, and refused for its replacement price only if it does not |
| `TxPools.TxPool.AddTx` | core/tx_pool.go:922-937 | the result is as for Add; on success without replacement the sender is drained with nothing useless and self-paid queued, and what then leaves is useless or remote and over a limit; otherwise nothing more changes; with room a valid transaction whose slot nobody has is known afterwards; contiguity kept; a new heartbeat only for the sender, and now if the transaction became pending |
| `TxPools.TxPool.AddEach` | core/tx_pool.go:956-966 | each transaction is decided on as if it came alone after those before it, with the local accounts of that moment, which only a local batch changes; every sender that gained one is reported |
| `TxPools.TxPool.AddTxs` | core/tx_pool.go:956-977 | each transaction is decided on as if it came alone after those before it, with the local accounts of that moment; then every sender that gained one is drained, and what leaves is useless or remote and over a limit; with room nothing useful leaves and every valid transaction whose slot nobody contests is known afterwards |
| `TxPools.TxPool.SetGasPrice` | core/tx_pool.go:540-549 | exactly the remote transactions below the price leave |
| `TxPools.TxPool.Evict` | core/tx_pool.go:379-393 | removes exactly the queues of remote accounts idle beyond the configured lifetime; with heartbeats in step that is every remote queue of an account with nothing pending |
| `TxPools.TxPool.DemoteAndFollow` | core/tx_pool.go:493-503 | from any lists and virtual nonces: the result is contiguous if and only if the condition on the state before holds |
| `TxPools.TxPool.Refresh` | core/tx_pool.go:493-507 | whatever the pool held, afterwards no known self-paid transaction is stale or unpayable, every account is drained and the limits hold; what leaves is useless or remote and over a limit, and useless if there is room; lists and virtual nonces that recover become contiguous |
| `TxPools.TxPool.Reset` | core/tx_pool.go:473-507 | the reinjected transactions are decided on as a batch at the new head, and of what is then known only useless or remote transactions leave, useless ones only if there is room; all accounts are drained, the limits hold and no known self-paid transaction is useless; the runs are contiguous for the new state if the lists after the reinjection recover, and always without reinjection; an unreadable head changes nothing |
| `TxPools.TxPool.ResetTo` | core/tx_pool.go:425-507 | reinjects exactly the transactions of the old branch that the new one lacks, for heads at most 64 numbers apart upwards, and does nothing if and only if those branches do not meet; with room in the pool every reinjected transaction that is valid at the new head and whose slot nobody contests is known afterwards |
| `TxPools.TxPool.Step` | core/tx_pool.go:330-406 | any operation keeps the invariant, heartbeats in step with pending lists and, if steady, contiguity; and does what it is for: a reprice or a head takes effect, stale queues go, and with room uncontested valid transactions are known |
| `TxPools.TxPool.RunAll` | core/tx_pool.go:330-406 | over every run: known transactions are exactly the disjoint union of pending and queue with no nonce in both, every one has a price-heap entry, those beyond them are counted as stale, none remote is below the price; nothing is known that no operation brought, head and price are the last ones set; an account has a heartbeat exactly while it has pending transactions; and without reinjection pending lists are gap-free runs up to the virtual nonce |
| `Indexers.CompleteSections` | core/chain_indexer.go:273-278 | for a head below 2^64 - 1 with enough blocks, the only number s whose sections with the confirmations on top fit below the head while s + 1 do not; 0 if there are not enough; never more blocks than the head has, in 64-bit arithmetic |
| `Indexers.ConfirmedIsUnique` | core/chain_indexer.go:273-278 | that number is unique |
| `Indexers.HighestHeadWraps` | core/chain_indexer.go:275 | head 2^64 - 1 wraps: it completes nothing without confirmations, although it has the blocks |
| `Indexers.HeadMakesKnown` | core/chain_indexer.go:272-295 | a head that completes a section makes it known, and a section newly known is confirmed under that head |
| `Indexers.ReorgTakesBack` | core/chain_indexer.go:243-271 | after a reorganisation no known or stored section reaches above the common block |
| `Indexers.KnownIsConfirmed` | core/chain_indexer.go:239-412 | in every state of every run, a section known and not there at the start was confirmed by a head received before, its last block at least the required number deep |
| `Indexers.ReorgKeeps` | core/chain_indexer.go:243-271 | starting a reorganisation keeps every section below the count linked and no head above it |
| `Indexers.WriteKeeps` | core/chain_indexer.go:453-465 | so does each single write of a setValidSections that is alone |
| `Indexers.HeadKeeps` | core/chain_indexer.go:272-295 | so does a new head |
| `Indexers.BeginKeeps` | core/chain_indexer.go:315-332 | so does starting an update |
| `Indexers.ReadKeeps` | core/chain_indexer.go:393-406 | so does each block read, whatever the database returns at that moment |
| `Indexers.ResetFailureKeeps` | core/chain_indexer.go:388-391 | so does a backend that refuses the section, unless a reorganisation is taking sections back |
| `Indexers.CheckMeansUnmoved` | core/chain_indexer.go:345-346 | the head comparison passes only if no reorganisation removed the section before, also at section 0 where section - 1 wraps |
| `Indexers.FinishKeeps` | core/chain_indexer.go:343-363 | so does storing or discarding the section |
| `Indexers.StepKeepsHeads` | core/chain_indexer.go:239-412 | any step of any indexer in a tree keeps all section heads linked, if after it no two are inside one setValidSections |
| `Indexers.HeadsLinkedOverRuns` | core/chain_indexer.go:239-412 | in every state of every interleaving of single writes in which no reorganisation takes sections back while a refused section clears them: sections below the count have heads, each section size parent links after the one before, and no others do but one just being removed |
| `Indexers.AloneIsSetValid` | core/chain_indexer.go:453-465 | the single writes of one that is alone come to setting the count and removing the heads from it |
| `Indexers.ReorgAlone` | core/chain_indexer.go:243-271 | so a reorganisation that is alone ends as if it were one step |
| `Indexers.ClearingAlone` | core/chain_indexer.go:388-391 | and so does the unlocked clearing after a refused section |
| `Indexers.CountWithoutHeads` | core/chain_indexer.go:257-260 | for every reorganisation to a section above 0, an interleaving with the unlocked clearing that leaves its sections counted and no heads |
| `Indexers.OverlapBreaksIff` | core/chain_indexer.go:388-391 | when a reorganisation and the unlocked clearing enter setValidSections together, some interleaving ends with a count that is not that of the heads if and only if at least two sections were stored |
| `Indexers.RefusalCanBreak` | core/chain_indexer.go:333-391 | from every good state with two or more stored sections there is a run, with one refusal and one reorganisation, to a state at rest whose heads are not those of the count |
| `Indexers.ReorgReachesChildren` | core/chain_indexer.go:254-271 | a reorganisation that takes stored sections back notifies the children, except exactly with section size 1 and only the last section taken back |
| `Indexers.OneBlockSectionIsMissed` | core/chain_indexer.go:254-271 | a concrete indexer of one-block sections that takes its section back without telling its children |
| `Indexers.ReorgKeepsBound` | core/chain_indexer.go:254-271 | starting a reorganisation keeps a child within what its parent has |
| `Indexers.WriteKeepsBound` | core/chain_indexer.go:257-268 | when the parent has taken its sections back, the child is within it or the notice that takes it back is on its way |
| `Indexers.FinishKeepsBound` | core/chain_indexer.go:345-358 | storing a section keeps the bound |
| `Indexers.DeliveryKeepsBound` | core/chain_indexer.go:239-296 | a delivered notice brings the child within its parent |
| `Indexers.StepKeepsBounds` | core/chain_indexer.go:239-412 | any step but a failing backend keeps every child within its parent |
| `Indexers.ChildrenBoundedOverRuns` | core/chain_indexer.go:239-412 | in every state of every interleaving with sections of two blocks or more and no refused section, a child without an outstanding notice knows no more blocks than its parent has stored, or had when it began to take some back |
| `Indexers.RefusalLeavesChildAhead` | core/chain_indexer.go:388-391 | after a refused section a child that knows anything is ahead of its parent and is not told |
| `IndexerObjects.ChainedIsLinked` | core/chain_indexer.go:393-411 | a section read through ends section size parent links after its start |
| `IndexerObjects.ReadsCompose` | core/chain_indexer.go:393-411 | block-by-block reads come to the same as one pass |
| `IndexerObjects.SectionIsStored` | core/chain_indexer.go:315-363 | a section whose blocks chain and whose backend commits is stored and the children are told of its last block; otherwise nothing is stored |
| `IndexerObjects.ChainIndexer.SetValidSections` | core/chain_indexer.go:453-465 | the mutable object follows the specified step: heads at or above the new count are gone |
| `IndexerObjects.ChainIndexer.NewHead` | core/chain_indexer.go:239-296 | the mutable object does what the reorganisation or the new head does when it is alone, the required confirmations counted |
| `IndexerObjects.ChainIndexer.BeginUpdate` | core/chain_indexer.go:315-332 | the section and head remembered before unlocking |
| `IndexerObjects.ChainIndexer.ProcessSection` | core/chain_indexer.go:383-412 | succeeds exactly if every block continues the one before and the backend commits; the new head is section size links after the old |
| `IndexerObjects.ChainIndexer.FinishUpdate` | core/chain_indexer.go:343-363 | the mutable object follows the specified step |
| `Feeds.Deactivation` | event/feed.go:320-324 | swapping a served case behind the active prefix moves exactly that subscriber from active to served |
| `Feeds.Deletion` | event/feed.go:315-317 | deleting a case removes exactly that subscriber and shrinks the prefix exactly if it was active |
| `Feeds.ProgressDelivers` | event/feed.go:182-191 | a delivery moves exactly one channel from the unserved to the delivered |
| `Feeds.ProgressLoses` | event/feed.go:197-203 | an unsubscription takes out exactly one channel, which is missed exactly if it was unserved |
| `Feeds.ProgressEnds` | event/feed.go:177-208 | when nobody is active, everybody was served or left first |
| `Feeds.NobodyAsked` | event/feed.go:197-203 | if nobody asks to leave, nobody is taken out |
| `Feeds.LeaversAsked` | event/feed.go:130-151 | whoever was waiting to leave or asks to is among the leavers, and nobody else |
| `Feeds.Feed.Subscribe` | event/feed.go:73-93 | the channel waits in the inbox |
| `Feeds.Feed.Remove` | event/feed.go:130-151 | exactly the given channel is unsubscribed, the first of it in the inbox or else one of the cases |
| `Feeds.Feed.Find` | event/feed.go:305-312 | an index of the channel, or -1 exactly if it is absent |
| `Feeds.Feed.Delete` | event/feed.go:315-317 | shifts the array in place; the cases are the old ones without that index |
| `Feeds.Feed.Deactivate` | event/feed.go:320-324 | swaps in place with the last active case |
| `Feeds.Feed.TakeInbox` | event/feed.go:161-164 | appends the inbox, in place or into a larger array |
| `Feeds.Feed.Interfere` | event/feed.go:130-151 | requests of other goroutines between attempts: exactly those past the inbox wait to hand over their channel, once per subscription, and none is lost |
| `Feeds.Feed.FastPath` | event/feed.go:182-191 | tries each active case exactly once and delivers to exactly those that are ready; the prefix stays exactly the unserved |
| `Feeds.Feed.Select` | event/feed.go:195-207 | an unsubscription that was asked for if one interrupts, and otherwise a delivery to exactly the case picked; progress |
| `Feeds.Feed.Round` | event/feed.go:177-208 | one pass of the loop: finished exactly with nobody unserved, else strictly less to do |
| `Feeds.Feed.TakeOut` | event/feed.go:197-203 | an interrupting unsubscriber is always found and deleted, active or served |
| `Feeds.Feed.Send` | event/feed.go:155-216 | for every environment (who is ready when, who subscribes or asks to leave when): each subscription receives the value exactly once, except those that left unserved, which had asked to; who asked has left or still waits to, and nobody else; the result counts deliveries; later subscribers are exactly those who did not leave; who joined meanwhile and did not leave is in the inbox in order; it ends within a bound, and if nobody asks, everybody is served |
| `Chains.WalkFacts` | core/blockchain.go:1446-1486 | the collected blocks are the successive ancestors, one number apart |
| `Chains.MeetIsHighest` | core/blockchain.go:1468-1485 | the meeting point of two walks that stay apart is the highest common ancestor |
| `Chains.StoppedWalks` | core/blockchain.go:1479-1485 | if one walk cannot go on, the heads have no known common ancestor |
| `Chains.TooShort` | core/blockchain.go:1446-1466 | a branch that ends above the other head has none either |
| `Chains.BranchMakesFollow` | core/blockchain.go:1498-1506 | writing the new branch over an index that follows the old head makes it follow the new head |
| `Chains.BlockChain.Insert` | core/blockchain.go:577-595 | canonical at its number, head, and last block unless lower |
| `Chains.BlockChain.Reduce` | core/blockchain.go:1446-1460 | collects the ancestors down to a number, or fails exactly if one is missing |
| `Chains.BlockChain.Meet` | core/blockchain.go:1468-1486 | ends at a common ancestor with branches that share no block, or with none existing |
| `Chains.BlockChain.WriteLookups` | core/rawdb/accessors_indexes.go:43-60 | exactly the block's transactions point to it |
| `Chains.BlockChain.InsertAll` | core/blockchain.go:1498-1506 | exactly the numbers of the branch are rewritten, each transaction points to the highest block of the branch that has it |
| `Chains.BlockChain.DeleteLost` | core/blockchain.go:1507-1515 | exactly the lookups of transactions only on the old branch are deleted |
| `Chains.BlockChain.Reorg` | core/blockchain.go:1419-1515 | succeeds if and only if the heads have a known common ancestor and otherwise changes nothing; finds the highest one; the canonical index follows the new head at every known height up to it; lookups move; the head is the new one unless it is an ancestor of the old |
| `Chains.BlockChain.Discarded` | core/tx_pool.go:426-472 | for a head from the same number to 64 above: the transactions of the old branch down to the highest common ancestor that are not on the new one, in order, and failure if and only if there is no known common ancestor; for any other head none |
| `Chains.TxDifference` | core/types/transaction.go:557-572 | the entries of the first list that are not in the second, in order |
| `Ancestors.ShortcutFollowsLinks` | core/headerchain.go:299-303 | from a canonical header the index and the parent links agree all the way down |
| `Ancestors.HeaderChain.GetHeader` | core/headerchain.go:321-333 | cached by hash alone, else read by hash and number and then cached; the bounded cache stays sound and gains nothing else |
| `Ancestors.HeaderChain.GetAncestor` | core/headerchain.go:287-317 | for every hash and number: an answer that parent links do not lead to is given if and only if the walk, through cached headers, meets the zero hash at a number past the canonical chain; with its own number a hash gets exactly the answer of parent links within the limit, and the exact budget left; with another number exactly what the cache leads to |
| `Ancestors.ZeroHashIsAnswered` | core/headerchain.go:299-303 | a concrete chain on which the zero hash is answered although it has no ancestor |
| `Ancestors.GenesisIsItsOwnAncestor` | core/headerchain.go:299-303 | a concrete chain on which the genesis block, given with number 3, is its own third ancestor |
| `Ancestors.ReachedIsReal` | core/headerchain.go:287-317 | a known ancestor has a real hash, so an empty answer means none |
| `Ancestors.UncachedFollowsLinks` | core/evm.go:65-88 | below the reference header the walk gives the ancestor's hash by parent links |
| `Ancestors.UncachedAbove` | core/evm.go:65-88 | at and above it the walk gives none |
| `Ancestors.AheadStep` | core/evm.go:79-85 | each memo entry written is the answer the walk would give |
| `Ancestors.HashFn.Query` | core/evm.go:68-87 | answers as the walk without a memo would, keeps the memo so, and remembers what it found |
| `Ancestors.HashFn.QueryAll` | core/evm.go:65-88 | so for any sequence of queries |
| `GasAccounting.IntrinsicGas` | core/state_transition.go:82-112 | the exact sum over all bytes if it fits in 64 bits, and an error exactly if it does not |
| `GasAccounting.DataGasIsCounted` | core/state_transition.go:91-110 | the data costs 4 for each zero byte and 68 for each other |
| `GasAccounting.RefusalIs` | core/state_transition.go:155-225 | each refusal exactly: nonce too high or too low, funds, the pool of the block, intrinsic gas, each only if none before it applies |
| `GasAccounting.GasPool.AddGas` | core/gaspool.go:29-35 | panics exactly if the sum passes 64 bits |
| `GasAccounting.GasPool.SubGas` | core/gaspool.go:39-45 | takes exactly the amount or nothing |
| `GasAccounting.StateTransition.UseGas` | core/state_transition.go:146-153 | takes exactly the amount or nothing |
| `GasAccounting.StateTransition.BuyGas` | core/state_transition.go:155-183 | debits gas times price and takes the gas from the pool, or changes nothing with the right error |
| `GasAccounting.StateTransition.PreCheck` | core/state_transition.go:185-203 | a checked message goes on only with the nonce of its sender and is refused as too high or too low exactly if it is; otherwise the gas has been bought from the right account |
| `GasAccounting.StateTransition.PayIntrinsic` | core/state_transition.go:216-225 | succeeds exactly if the gas covers the intrinsic gas |
| `GasAccounting.StateTransition.RunMachine` | core/state_transition.go:233-240 | a call raises the nonce of its sender before the machine runs, a creation within it unless the funds are lacking; the machine moves balances, sets other nonces and leaves no more gas than it got |
| `GasAccounting.StateTransition.RefundGas` | core/state_transition.go:256-274 | the refund is the counter capped at half the gas used; AddGas never panics; the rest is sold back at the price |
| `GasAccounting.Settled` | core/state_transition.go:155-274 | buying, the transfers of the run and refunding together charge the payer gas used times price and nobody else |
| `GasAccounting.StateTransition.TransitionDb` | core/state_transition.go:208-254 | the exact outcome for every run of the virtual machine: each refusal if and only if its own condition holds and no earlier one, in plain terms of nonce, balance, pool and gas; no panic, the gas used, the pool loses just that, at least half the intrinsic gas is used, the nonce of the sender rises by one save for a creation that lacks funds, and beyond what the run moved the gas payer alone pays gas used times price |
| `GasAccounting.StaysValidIff` | core/vm/evm.go:390-402 | after a message that went through, the machine having set no nonce of its sender, its nonce is still the right one if and only if it is a creation whose sender lacked the funds for value and extra fee together |
| `BlockGas.BlockRun.ApplyTransaction` | core/state_processor.go:102-159 | gas total, fees and receipt grow by what the transaction used, the contract address exactly for creations; balances change by what the run moved and the gas paid |
| `BlockGas.BlockRun.ProcessNext` | core/state_processor.go:76-92 | goes on if and only if the transaction is admitted after those before it |
| `BlockGas.AcceptedIsNoReplay` | core/state_processor.go:62-96 | if the machine lowers no nonce, no nonce is the last a word can hold and no creation lacks the funds for value and extra fee, no two checked transactions of one sender in an accepted block have the same nonce |
| `BlockGas.RefusedCreationComesTwice` | core/vm/evm.go:390-402 | a concrete creation without the funds for its extra fee that is admitted twice in one block |
| `BlockGas.BlockRun.Process` | core/state_processor.go:62-96 | over every block and every behaviour of the virtual machine: it stops at exactly the first transaction that is not admitted; gas used plus gas left is the limit; what the payers lose beyond what the runs moved is exactly the gas fees within the fee amount |
| `BlockGas.PaymentsAreFees` | core/state_processor.go:134-139 | what all payers pay for gas is exactly the gas fees |
| `BlockGas.DebitsAreFees` | core/state_processor.go:134-139 | summed over any accounts that include every payer, the debit beyond what the runs moved is the gas fees |
| `BlockGas.SetReceiptsData` | core/blockchain.go:847-887 | fills in every receipt in place, contract addresses included, or nothing if the counts differ |
| `BlockGas.LogsAreNumbered` | core/blockchain.go:877-886 | over all receipts of a block the log indices are 0, 1, 2 and so on, without repeats |
| `BlockGas.LogsAreLocated` | core/blockchain.go:877-886 | every log names its block, its transaction and the index of that transaction |
| `BlockGas.GasIsRecovered` | core/blockchain.go:870-875 | from the running totals each receipt gets back the gas its transaction used |
| `Protocols.Sort` | p2p/protocol.go:78-84 | capabilities in lexicographic order of name, then version, the same multiset |
| `Protocols.Find` | p2p/peer.go:339-348 | the first protocol with that name and version |
| `Protocols.MatchedKeepsAgreed` | p2p/peer.go:340-347 | a match replaces a lower version of its name or comes last, so each name keeps its highest shared version |
| `Protocols.Assign` | p2p/peer.go:340-347 | the running offset, reverted and advanced in 64-bit arithmetic, is the end of the layout |
| `Protocols.MatchProtocols` | p2p/peer.go:331-353 | the table holds the highest shared version per name, laid out in name order without gaps from code 16 |
| `Protocols.EndsAgree` | p2p/peer.go:331-353 | two ends that give equal lengths to equal names and versions compute the same table |
| `Protocols.CodesAreDivided` | p2p/peer.go:386-393 | if the codes fit in 64 bits, exactly the codes from 16 to the end are handled, each by one protocol |
| `Protocols.WrapLosesProtocol` | p2p/peer.go:386-393 | if they do not fit, some protocol of the table handles no code at all |
| `Protocols.LongestIsLost` | p2p/peer.go:386-393 | a concrete table of one protocol that does not fit and handles no code |
| `Protocols.SoundIffFits` | p2p/peer.go:386-433 | every code a protocol may write arrives at it as itself, and at no other, if and only if all codes fit in 64 bits |
| `Protocols.GetProto` | p2p/peer.go:386-393 | a protocol that handles the code, or none exactly if there is none |
| `Protocols.Transmit` | p2p/peer.go:386-437 | when the codes fit, what one end writes the same protocol on the other end receives as the same code; a code that is too large is always refused |
| `Dialing.HistoryIdsAreDistinct` | p2p/dial.go:405-433 | no id is twice in the history |
| `Dialing.DialHistory.Add` | p2p/dial.go:408-411 | one more recorded dial |
| `Dialing.DialHistory.Remove` | p2p/dial.go:412-420 | forgets exactly that id |
| `Dialing.DialHistory.Contains` | p2p/dial.go:421-428 | whether the id is recorded |
| `Dialing.DialHistory.Expire` | p2p/dial.go:429-433 | forgets exactly what expired before now and keeps every other id with its time |
| `Dialing.DialState.constructor` | p2p/dial.go:130-147 | a fresh scheduler with the given static nodes meets the invariant |
| `Dialing.LastStaticWins` | p2p/dial.go:143-154 | every given node is static, the last of its id |
| `Dialing.DialState.CheckDial` | p2p/dial.go:267-283 | the first reason not to dial, in the order of the tests |
| `Dialing.DialState.AddDial` | p2p/dial.go:169-177 | hands out exactly the permitted dial and keeps the limits |
| `Dialing.DialState.DialStatics` | p2p/dial.go:195-206 | a static node is forgotten exactly if it was not busy and is this node or outside the network; every one kept is connected, being dialed or recent; no dynamic place is used |
| `Dialing.DialState.NeedDynDials` | p2p/dial.go:179-190 | never more room than the limit less peers and dials together |
| `Dialing.DialState.Fallback` | p2p/dial.go:208-218 | rotates the boot nodes and tries one only with no peers, room and after the interval; that one is then being dialed or may not be |
| `Dialing.DialState.DialDynamic` | p2p/dial.go:208-240 | every candidate tried, from the random nodes or the lookup results, is afterwards being dialed, connected, this node, outside the network or in the history; the room shrinks by the dials handed out; tried results are dropped, and some stay only if the room is used up |
| `Dialing.DialState.PlanDials` | p2p/dial.go:192-240 | the same with the static nodes looked after first |
| `Dialing.DialState.EndRound` | p2p/dial.go:241-254 | a lookup exactly if more candidates are needed and none runs; else a timer to exactly the earliest expiry if nothing else is running |
| `Dialing.DialState.NewTasks` | p2p/dial.go:164-257 | every dial handed out is new, not to this node, a connected peer, a foreign address or an id dialed in the last thirty seconds; every candidate tried is being dialed or may not be; untried results stay only without room; a lookup exactly if more candidates are needed and none runs; static nodes are looked after |
| `Dialing.DialState.TaskDone` | p2p/dial.go:285-296 | a finished dial enters the history and is no longer in flight; a finished lookup adds its results |
| `Dialing.DialState.AddStatic` | p2p/dial.go:149-154 | a static node is added or replaced |
| `Dialing.DialState.RemoveStatic` | p2p/dial.go:156-162 | the node and its last dial are forgotten |
| `Dialing.DialState.Run` | p2p/dial.go:164-296 | over every run with a monotone clock: one dial per id, never to itself, dynamic peers and dials together within the limit, at most one lookup, history ids apart from dialing ids, recent dials remembered |
| `Reservoirs.RootIsLightest` | metrics/sample.go:564-573 | the root of the heap is a lightest entry |
| `Reservoirs.UpStep` | metrics/sample.go:583-592 | one swap upwards moves the only misplaced entry to its parent |
| `Reservoirs.DownStep` | metrics/sample.go:594-610 | one swap downwards moves the only misplaced entry to its lighter child |
| `Reservoirs.SampleHeap.Up` | metrics/sample.go:583-592 | restores the heap in place with the same entries and leaves the rest of the array alone |
| `Reservoirs.SampleHeap.Down` | metrics/sample.go:594-610 | the same downwards |
| `Reservoirs.SampleHeap.Push` | metrics/sample.go:557-562 | one more entry; the array beyond the new one is untouched |
| `Reservoirs.SampleHeap.Pop` | metrics/sample.go:564-573 | takes out an entry no heavier than any other |
| `Reservoirs.ExpDecaySample.Rescale` | metrics/sample.go:175-185 | re-pushing the slice into its own array loses nothing: a heap of exactly the old values with every weight scaled by the factor |
| `Reservoirs.ExpDecaySample.Insert` | metrics/sample.go:168-174 | a full reservoir drops one lightest value and never grows beyond its size |
| `Reservoirs.ExpDecaySample.Update` | metrics/sample.go:164-186 | the contents after any update, with and without rescaling; panics exactly if the reservoir has size zero |
| `DerivationPaths.ParseDerivationPath` | accounts/hd.go:67-117 | the loop computes the specified parse, errors included |
| `DerivationPaths.String` | accounts/hd.go:121-135 | the loop prints the canonical form |
| `DerivationPaths.DecimalIsRead` | accounts/hd.go:99-103 | a printed number is read as decimal although a leading zero would mean octal |
| `DerivationPaths.PrefixIsRead` | accounts/hd.go:99-103 | hexadecimal, binary and octal spellings, in either case, are read as the number their digits stand for in base 16, 2 and 8 |
| `DerivationPaths.UnsignedIff` | accounts/hd.go:99-103 | exactly the digits of the base a prefix names are read, and at least one; without a prefix those of base 10 |
| `DerivationPaths.RangeIsChecked` | accounts/hd.go:99-111 | a decimal component is accepted exactly up to 2^32 - 1, with the hardening mark exactly below 2^31, and negative ones are refused |
| `DerivationPaths.SpaceIsIgnored` | accounts/hd.go:89-92 | white space around a component changes nothing |
| `DerivationPaths.SplitIsJoined` | accounts/hd.go:70-71 | the parts of any text joined by slashes are the text |
| `DerivationPaths.DefaultRootIs` | accounts/hd.go:27-30 | the default root prints as m/44'/60'/0'/0 |
| `DerivationPaths.ComponentRoundTrip` | accounts/hd.go:89-114 | a printed component parses to itself, hardened or not |
| `DerivationPaths.SplitPrinted` | accounts/hd.go:70-71 | splitting the printed form gives m and the printed components |
| `DerivationPaths.PathRoundTrip` | accounts/hd.go:67-135 | for 32-bit paths the printed form parses back to the path if and only if the path is not empty |
| `DerivationPaths.PrintIsInjective` | accounts/hd.go:121-135 | different paths print differently |
| `DerivationPaths.AcceptedNormalises` | accounts/hd.go:67-135 | whatever is accepted is a non-empty 32-bit path whose printed form parses to the same path |
| `DerivationPaths.RelativeIsBelowRoot` | accounts/hd.go:82-84 | a relative path extends the default root by one component per part |

## Left out

- TxPools.TxPool.Reset: with reinjection, contiguity is stated under a condition on the lists after it (`Recovers`), because a refused reinjection can leave a gap in the middle, which demotion keeps (`TxPools.GapIsKept`); `TxPools.TxPool.RunAll` states it for runs without reinjection. A transaction paid for by another account may stay although its payer is broke, as `TxLists.BrokePayerIsKept` shows.
- Chains.BlockChain.Discarded: the depth is an exact difference; the source computes it in floating point, which is exact below 2^53.
- TxPools.TxPool.PromoteExecutables: account lists are held by value in the pool's maps, so aliasing between a list and its map entry is not modelled; `TxLists.TxList` and `SortedMaps.TxSortedMap` prove the mutable lists equal to those values.
- TxPools.TxPool.PopLongest: the spam priority is an exact integer; the source keeps it in a float32, which is exact below 2^24 transactions per account.
- TxLists.TxList.Add: the price bump is an unbounded natural number; the source converts it to int64.
- PricedLists.TxPricedList.Removed: the heap has at most as many entries as there are known transactions and counted stale ones; equality is not stated, because a transaction that comes back while its old entry remains can be dropped twice (`PricedLists.DroppedTwice`).
- Ancestors.HeaderChain.GetAncestor: for a hash given with a number that is not its own the budget left is only bounded.
- The pool's journal, events, logging, metrics and the metered counters.
- Indexers.StepKeepsHeads: no checkpoint is added while the system runs; throttling, progress logging, timers and the count kept in the database are left out; lowering the count is one step, where the source reads and writes; a child's notice is delivered as a separate step in any order while the parent keeps its lock.
- Feeds.Feed.Send: the type check of the value and the send lock (one Send at a time) are left out, and `SendSync` is the same algorithm.
- Chains.BlockChain.Reorg: lookup entries are modelled as the block hash alone, without the index within the block; collected logs and the events sent afterwards are left out; the canonical index above the new head is left as it was, as in the source.
- Ancestors.HashFn.Query: the reference header is linked like any other header, so a block number 0 has no known parent.
- GasAccounting.StateTransition.TransitionDb: a run of the virtual machine is a given value: the gas it leaves (never more than it got), its error, what it moves between accounts, value and extra fee included, its refund counter and the nonces it sets beyond the sender's step; a refused transfer returns with the balances as the source leaves them, which are not stated.
- BlockGas.BlockRun.Process: permission checks, signatures and contract registration are given refusals; distributing the fees at the end of the block is left out.
- Protocols.Transmit: which protocol gets a code when the codes do not fit in 64 bits depends on the order of a map and is not stated. The select on a closing peer is left out.
- Dialing.DialState.Run: dynamic peers come only from dynamic dials still under way, and the clock does not run backwards; resolving addresses and the server's limit on running tasks are left out.
- Reservoirs.ExpDecaySample.Update: weights are real numbers given as parameters, so rounding, overflow and the random source play no part; the summary statistics of a sample are left out.
- DerivationPaths.ParseDerivationPath: digit separators and the 0o prefix, which newer Go releases also read, are not read; white space is Unicode's.
- Virtual machine, state trie, RLP, database encodings, consensus engine, committee election, permission tables, certificates, cryptography, RPC, console, node start-up and command line tools.
