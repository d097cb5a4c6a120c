# Verified model of the chain node's transaction handling

A Dafny model of the parts of the node that keep, order, execute, encode and index transactions,
with proofs of what those parts promise over whole runs. `dafny verify dfyconfig.toml` checks it.

## What is modelled

**The transaction pool** (`core/tx_pool.go`, `core/tx_list.go`). `Pooling.TxPool` is a class with the
pool's own maps. Every operation is tied to a function or relation on `PoolModel.Pool`, the pool seen
as executable lists, queues and virtual nonces. Under it, `SortedMap.TxSortedMap` is the nonce heap
with its cache, `Lists.List` the per-account list with its cost and gas caps, `Priced.PricedList` the
lazy price heap, and `Heap` the binary heap they all stand on. `Truncation` holds the two truncation
loops, `Admission` and `PoolSteps` what the operations may do to it, `Runs` the theorem over every run
of submissions, batches, chain heads, price changes and evictions. `PoolLaws` says what the operations
come to, transaction by transaction: who gets in, who is dropped for what limit, who is local. `Gaps` is
what a reset that puts transactions back does to one account, `Reinjection` and `Roomy` what it does to
the pool, and `GapRuns` has runs in which it goes wrong.

**Packing and execution** (`types/transaction.go`, `core/state_transition.go`, `core/gaspool.go`,
`core/state/statedb.go`, `core/state_processor.go`, `consensus/dpor/consensus.go`, `miner/engine.go`).
`Iteration` is the price/nonce iterator, `IteratorRuns` its runs; `Execution` is one state transition
around a virtual machine given as a parameter that returns no more gas than it got and makes no money,
though it may lose some;
`StateDb` is the state with its snapshots; `Processing` applies blocks, pays their reward and recovers
receipts; `Packing` fills new blocks.

**The canonical chain** (`core/blockchain.go`, `core/rawdb/accessors_indexes.go`,
`core/headerchain.go`, `core/chain_indexer.go`). `BlockTree` has blocks keyed by hash, paths to
genesis and forks; `ChainIndex` the number map and the transaction index as values; `Chain` the head
choice and the reorganisation; `ResetWalk` the pool's own walk between heads; `Ancestry` the ancestor
lookup with its shortcut; `Indexer` the section indexer.

**The ABI codec** (`accounts/abi`). `Words` are big-endian words, `Abi` the encoder and the decoder,
`AbiRoundTrip` the laws between them, `AbiLayout` where every byte goes.

**The RPC client's dispatch loop** (`api/rpc/client.go`). `Dispatch` is a step machine over requests
and the ids they wait for. Closing or sending on a response channel has the panicking and blocking
cases as preconditions, so every use is proved to avoid them.

A transaction record stands for its own hash, and a block for the block of its hash: hashes are taken
to be injective. Big integers are `int`. Locked operations are atomic steps.

## Where the code falls short of the plain statement

- After a reset that puts transactions back the pool need not be contiguous. There are two ways to fail,
  and `Reinjection.ResetIff` says for every reset of a contiguous pool that there are no others.
  - The code looks for a gap at the front only. An account keeps one if payable transactions are queued at
    the state nonce that end short of the executable ones, and the first of those can still be paid for
    (`Gaps.GapIff`), unless the limits cut off one side of the gap. `GapRuns.ReinjectionGap` is a family of
    heads that leave a gap, `GapRuns.GapRun` a run that ends there.
  - An executable transaction whose nonce the new state has passed may make way for those put back, to a
    discard or to a cut. That lowers the pending nonce below the state's, and the reset does not raise it
    again, so the account's next transactions stay queued. `Reinjection.DiscardBreaks` shows that one such discard
    is enough, `GapRuns.DiscardGap` is a family of heads that force it, `GapRuns.DiscardRun` a run.

  With room for everything neither discards nor cuts happen, and the first point alone decides
  (`Roomy.RoomyIff`). `Runs.Run` proves contiguity for every run whose resets put nothing back.
- A big integer comes back from the codec modulo 2^256, since signed numbers wider than 64 bits are
  read as unsigned: `AbiRoundTrip.RoundTrip` gives back the arguments if and only if every big integer
  is an unsigned 256-bit number.
- The encoder's head size counts one array level, so offsets are right if and only if no array
  holds arrays of more than one word (`AbiRoundTrip.OffsetIff`); `AbiRoundTrip.NestedArrayFails` is an input that cannot be decoded.
- Sections known to the indexer stay confirmed if and only if those kept across an announcement were
  (`Indexer.GrownIff`); that holds in every run in which no head gets lower
  (`Indexer.ChainIndexer.Follow`), and `Indexer.LoweredHead` is a run in which one does and it fails. The
  heads stored are right whatever the heads do. The chain itself never moves to a lower head
  (`Chain.BlockChain.WriteBlock`).
- A miner that tries a private transaction crashes if and only if the public half goes through and the
  private half breaks: the end of the public half discards the snapshot the miner then goes back to
  (`Packing.Work.CommitTransaction`; `Packing.CrashExample` is one). Block processing turns the block down
  in that case, and where no private half runs gas used and gas left make up exactly the limit
  (`Processing.BooksBalance`).
- A block a miner packs need not be accepted by other nodes, since a node that may see a private half the
  miner could not see runs it on the same gas pool. It accepts the block if and only if no private half
  breaks there and each transaction still finds its gas (`Packing.MinedIff`); `Packing.TurnedDown` packs a
  block that a node turns down.
- A block does not conserve the total balance: it adds the coinbase's reward, and accounts that destroy
  themselves take with them what they hold if they are their own heirs, and what they are paid afterwards.
  `Processing.Process` states the exact sum.

## Model

| member | source | states |
|---|---|---|
| Runs.Run | core/tx_pool.go:695-1240 | over every run of events from an empty pool: lookup equals executable plus queued transactions, the two share no nonce, every live transaction has a price entry, remote prices respect the floor, everything fits the state, and without re-injection executable nonces are exactly the interval from the state nonce to the pending nonce with every queued nonce above it; the run's pools follow one another by what each event may do |
| Runs.Step | core/tx_pool.go:856-934 | one event keeps the promise of the pool and is one of the changes allowed for that event |
| Pooling.TxPool.constructor | core/tx_pool.go:283-323 | a new pool is empty, with the given price floor and state |
| Pooling.TxPool.EnqueueTx | core/tx_pool.go:771-797 | queues any transaction unless its nonce is taken in the queue by one it does not outbid, that is, it must be dearer and its price plus one more than the bumped price, whatever the executable list holds; says which transaction leaves the lookup; the lists stay apart if the nonce is not executable |
| Pooling.TxPool.PromoteTx | core/tx_pool.go:815-851 | moves any transaction to the executable list and sets the virtual nonce behind it, or drops it from the lookup exactly when an older one is not outbid in the same sense; the lists stay apart if the nonce is not queued |
| Pooling.TxPool.PromoteNext | core/tx_pool.go:1052-1059 | in the midst of a promotion the "older was better" branch is never taken: the next transaction of the run is always inserted |
| Pooling.TxPool.EnqueueNext | core/tx_pool.go:1221-1234 | in the midst of a demotion every transaction is queued and replaces none |
| Pooling.TxPool.PromoteAccount | core/tx_pool.go:1020-1080 | one account's promotion equals the value function: outdated and unpayable out, the run from the virtual nonce moved, the rest capped; `PoolLaws.PromoteExactly` says which transactions that leaves |
| PoolLaws.PromoteExactly | core/tx_pool.go:1020-1073 | promotion drops exactly the queued transactions that do not fit the state and, from a remote account only and only at its limit, those above everything it keeps queued; it keeps what was executable and moves the lowest |
| PoolModel.PromoteSettles | core/tx_pool.go:1020-1080 | promoting an account with contiguous executable nonces leaves nothing executable in its queue |
| Pooling.TxPool.RemoveTx | core/tx_pool.go:964-1003 | removing a transaction postpones what depended on it, lowers the virtual nonce, and takes exactly that transaction out of the lookup |
| PoolModel.RemoveSettled | core/tx_pool.go:972-1002 | removal keeps the executable interval and keeps every queued nonce above it |
| Pooling.TxPool.DemoteUnexecutables | core/tx_pool.go:1200-1240 | every account is demoted as the value function says and no empty list stays |
| PoolLaws.DemoteExactly | core/tx_pool.go:1202-1234 | demotion drops exactly the executable transactions that do not fit the state |
| PoolModel.DemoteInterval | core/tx_pool.go:1202-1238 | demotion and the nonce update turn an interval of nonces into an interval from the new state nonce |
| Gaps.GapIff | core/tx_pool.go:498-513 | a reset to state nonce n leaves an account whose executable nonces are m to k, and whose virtual nonce is n or was lowered below it, contiguous exactly when the virtual nonce is n and m is not executable, is not above n, nothing payable is queued at n, the payable run from n reaches m, or the transaction at m cannot be paid for |
| Gaps.RemoveLaid | core/tx_pool.go:972-1002 | a removal during a reset leaves a prefix of the executable nonces, and the virtual nonce stays at the state's exactly when the nonce removed was not executable or is not passed |
| Gaps.TrimLaid | core/tx_pool.go:1113-1150 | so does cutting from the back, which takes the far side of a gap before the front |
| Gaps.TrimGapped | core/tx_pool.go:1113-1150 | a cut closes a gap exactly when it reaches the front |
| Reinjection.ResetIff | core/tx_pool.go:485-517 | a reset of a contiguous pool, whatever it puts back, discards and cuts, ends in a contiguous pool exactly when for every account no executable transaction with a passed nonce had to make way and, if the account got transactions back, they reach what was executable or a limit cut off one side of the gap |
| Reinjection.DiscardIff | core/tx_pool.go:985-993 | an account's virtual nonce is the state's after re-injection exactly when none of its executable transactions with passed nonces was discarded |
| Reinjection.DiscardBreaks | core/tx_pool.go:485-517 | a reset that discards one such transaction does not end in a contiguous pool, whatever else it does |
| Roomy.RoomyIff | core/tx_pool.go:485-517 | if the pool and what is put back fit GlobalSlots, the reset ends in a contiguous pool exactly when each account that got transactions back is bridged |
| Roomy.TotalLive | core/tx_pool.go:1085-1088 | there are no more executable transactions than pooled ones, so such a pool is not cut |
| GapRuns.ReinjectionGap | core/tx_pool.go:485-517 | whatever a head that puts back only the transaction two nonces below an account's single executable one makes of a pool with room for both, it is not contiguous |
| GapRuns.GapRun | core/tx_pool.go:485-517 | a pool that gets there: one submission, after which it is contiguous, and one head, after which it is not |
| GapRuns.DiscardGap | core/tx_pool.go:710-726 | whatever a head that passes all of a full remote pool and puts back a dearer transaction makes of it, it is not contiguous |
| GapRuns.DiscardRun | core/tx_pool.go:710-726 | a pool of one that gets there: contiguous after a submission, not after the head that holds it and puts back another's |
| Pooling.TxPool.PromoteExecutables | core/tx_pool.go:1008-1195 | promotes the given accounts, then cuts executable lists fairly, not within GlobalSlots and no further than needed, then cuts queues, not within GlobalQueue and otherwise to it or until only locals are queued; the lookup stays exact |
| PoolLaws.SettlesWithin | core/tx_pool.go:1061-1073 | afterwards no remote account it was called for queues more than AccountQueue, and only transactions that were executable or fit the state are left |
| PoolLaws.SettlesLocal | core/tx_pool.go:1060-1194 | a local account it was called for keeps exactly what was executable or fits the state, whatever the limits |
| PoolLaws.SettlesLoses | core/tx_pool.go:1060-1194 | what a remote account loses although it fits lies above everything it keeps queued, and then its queue is at AccountQueue or all queues are at GlobalQueue, or above everything it keeps executable, which is then no less than AccountSlots |
| Pooling.TxPool.TruncatePending | core/tx_pool.go:1085-1154 | terminates with the total within GlobalSlots or every remote account within AccountSlots; locals and accounts within their slots are untouched, no account is cut below its slots, no remote account ends up longer than one that was cut, each loses its highest nonces only, and it stops in time: with one transaction more for every account cut the total is over GlobalSlots |
| Pooling.TxPool.TruncateQueue | core/tx_pool.go:1156-1194 | changes nothing within GlobalQueue, and otherwise ends with exactly GlobalQueue queued or only locals queued; locals keep their queues and remote queues lose their highest nonces only |
| Truncation.EqualisingIsFair | core/tx_pool.go:1099-1131 | the state in which offenders are being equalised is a fair one |
| Truncation.LevellingIsFair | core/tx_pool.go:1133-1152 | so is cutting the equalised offenders together, and it ends with every remote account within its slots |
| Truncation.TrimSettled | core/tx_pool.go:1113-1150 | cutting from the back keeps an account contiguous and settled |
| Truncation.Count | core/tx_pool.go:1085-1088 | the counting loop yields the total number of transactions listed |
| Pooling.TxPool.ValidateTx | core/tx_pool.go:644-685 | every rejection reason, in the order the pool tests them |
| Admission.ValidIff | core/tx_pool.go:644-685 | a transaction is valid exactly when it is small, signed, not negative, within the block's gas, at the floor or local, not outdated, payable in full and brings its intrinsic gas |
| Admission.InvalidIff | core/tx_pool.go:644-685 | otherwise the error is that of the first of these rules it breaks, in that order |
| Pooling.TxPool.MakeRoom | core/tx_pool.go:710-726 | a full pool rejects a transaction no better than the cheapest, and otherwise discards the cheapest remote ones, as many as are over the limit |
| Pooling.TxPool.Add | core/tx_pool.go:695-766 | known, invalid and underpriced transactions change nothing; otherwise the cheapest remote ones go and the transaction is placed or replaces one it outbids; `PoolLaws.AcceptedIff` and `PoolLaws.AcceptedExactly` say when and what that comes to |
| PoolLaws.AcceptedIff | core/tx_pool.go:695-766 | adding succeeds exactly for a new and valid transaction that in a full pool is local or dearer than some pooled one, and that is dearer than what holds its nonce and not short of the price bump by more than rounding, unless that was just discarded |
| PoolLaws.AcceptedExactly | core/tx_pool.go:708-757 | then the pool holds what it held plus the new one, less the one replaced and the discarded, of which there are none below GlobalSlots plus GlobalQueue and never a local one |
| PoolLaws.DiscardExactly | core/tx_pool.go:718-726 | the discarded are the cheapest remote ones, of equal price those of the highest nonces, as many as the pool is over the limit with the new one or all there are |
| PoolLaws.AcceptedSize | core/tx_pool.go:709-757 | an accepted transaction makes the pool larger by exactly one, less the one replaced and the different ones discarded |
| PoolLaws.StaysWithin | core/tx_pool.go:709-726 | a pool within GlobalSlots plus GlobalQueue stays within it, unless that leaves only local ones beside the new one |
| PoolLaws.AdmitIff | core/tx_pool.go:729-749 | a transaction under a free nonce gets in; under a taken one it gets in exactly when it is dearer and one hundred times its price plus one exceeds the old price times one hundred plus the bump |
| PoolLaws.AdmitExactly | core/tx_pool.go:729-757 | it takes the place of the one with its sender and nonce in the same list; its sender becomes local exactly when it was submitted locally and replaced nothing executable |
| Pooling.TxPool.AddTx | core/tx_pool.go:882-901 | adding one transaction and promoting its account keeps the promise of the pool |
| Pooling.TxPool.AddTxs | core/tx_pool.go:904-934 | adding a batch is adding one by one, then promoting exactly the accounts that gained a transaction |
| PoolLaws.AddedAllExactly | core/tx_pool.go:904-934 | a batch changes neither state nor floor, adds only its own transactions and makes at most its senders local, and those only if it is local |
| PoolLaws.LocalsExactly | core/tx_pool.go:853-880 | over any event only a local submission makes an account local, only its own sender, and never with NoLocals; a new transaction so submitted with nothing executable under its nonce does |
| Admission.AddKeeps | core/tx_pool.go:695-766 | adding keeps prices at the floor, transactions affordable, and contiguity but for the account added to |
| Admission.AdmitContiguous | core/tx_pool.go:729-766 | placing or replacing a transaction leaves every account settled except the one to be promoted |
| Admission.AdmitFloor | core/tx_pool.go:664-667 | every remote transaction stays at or above the floor, also when a local submission replaces a pending transaction before its sender is marked local |
| Admission.PlacedExactly | core/tx_pool.go:729-757 | after placing, the pool holds what it held, plus the new transaction, minus the one replaced |
| Admission.SettlesPooled | core/tx_pool.go:1008-1195 | promotion and truncation add nothing to the pool |
| Admission.SettlesContiguous | core/tx_pool.go:1008-1195 | promotion and truncation restore contiguity for the accounts promoted and keep it for the others |
| Admission.SettlesAffordable | core/tx_pool.go:1027-1039 | once every queue is promoted, every transaction in the pool fits the state |
| Admission.ResetContiguous | core/tx_pool.go:494-513 | a reset that puts nothing back leaves every executable list an interval from the new state nonce |
| Pooling.TxPool.Reset | core/tx_pool.go:485-517 | takes over the new state, puts back, demotes, follows and promotes, in that order; the pool is affordable afterwards and contiguous if nothing was put back |
| PoolLaws.ResetExactly | core/tx_pool.go:485-517 | a reset takes over the state and leaves floor and local accounts alone; everything it leaves was pooled or put back, and fits the new state |
| PoolLaws.ReactExactly | core/tx_pool.go:498-513 | between putting back and promoting it drops exactly the executable transactions that no longer fit |
| Pooling.TxPool.FollowNonces | core/tx_pool.go:510-513 | every virtual nonce follows the account's last executable transaction |
| Pooling.TxPool.SetGasPrice | core/tx_pool.go:550-559 | removes exactly the remote transactions below the new floor |
| PoolLaws.RepricedExactly | core/tx_pool.go:550-559 | afterwards the pool holds exactly the transactions it held that are local or at the new floor |
| Pooling.TxPool.Evict | core/tx_pool.go:378-392 | drops the queues of the idle remote accounts and nothing else |
| PoolSteps.AddedKeeps | core/tx_pool.go:695-766 | whatever adding answers, floor, affordability and contiguity of the other accounts survive |
| PoolModel.LiveIsPooled | core/tx_pool.go:1291-1353 | a lookup that agrees with the lists is exactly their contents |
| SortedMap.TxSortedMap.constructor | core/tx_list.go:79-84 | an empty map with an empty heap |
| SortedMap.TxSortedMap.Put | core/tx_list.go:93-99 | files a transaction under its nonce; the heap holds every nonce once |
| SortedMap.TxSortedMap.Forward | core/tx_list.go:104-118 | removes exactly the nonces below the threshold, in order, and shifts the cache by them |
| SortedMap.TxSortedMap.Filter | core/tx_list.go:122-143 | removes exactly the matching transactions and rebuilds the heap |
| SortedMap.TxSortedMap.Cap | core/tx_list.go:147-168 | keeps the lowest nonces up to the threshold, returns the others highest first, and cuts the cache from the back |
| SortedMap.TxSortedMap.Remove | core/tx_list.go:172-189 | removes one nonce from map and heap and says whether it was there |
| SortedMap.TxSortedMap.Ready | core/tx_list.go:198-213 | takes out the maximal run of consecutive nonces from the lowest, if that is not above the start |
| SortedMap.TxSortedMap.FlattenCached | core/tx_list.go:223-236 | the nonce-sorted contents, whether or not they were cached |
| SortedMap.RootIsLowest | core/tx_list.go:106-113 | the root of the heap is the lowest nonce of the map |
| Nonces.FlattenListing | core/tx_list.go:223-236 | the flattened list has every transaction once, in strictly rising nonce order |
| Nonces.SortedIsFlatten | core/tx_list.go:226-231 | sorting the contents by nonce gives that list and no other |
| Nonces.FlattenSplit | core/tx_list.go:114-116 | cutting at a threshold splits the flattened list in two |
| Nonces.KeepIsLowest | core/tx_list.go:147-168 | capping keeps exactly the lowest nonces |
| Lists.List.constructor | core/tx_list.go:282-288 | a new list is empty with zero caps |
| Lists.List.Add | core/tx_list.go:301-322 | accepts exactly when the nonce is free or the price is higher than the one there and not short of the price bump by more than rounding; the caps bound every transaction |
| Lists.AcceptsIff | core/tx_list.go:304-312 | the test by percentage and division, without the division |
| Lists.List.Forward | core/tx_list.go:327-329 | removes the nonces below the threshold |
| Lists.List.Filter | core/tx_list.go:340-364 | equals the full scan in spite of its short circuit; in strict mode what follows the first removed one is handed back |
| Lists.List.Cap | core/tx_list.go:368-370 | keeps the lowest nonces |
| Lists.List.Remove | core/tx_list.go:375-386 | removes one transaction and, in strict mode, hands back everything after it |
| Lists.List.Ready | core/tx_list.go:395-397 | hands out the run that starts no later than the given nonce |
| Lists.List.FlattenAll | core/tx_list.go:412-414 | the nonce-sorted contents, which stay as they are |
| Lists.ShortCircuit | core/tx_list.go:341-344 | when the caps are within the limits the full scan removes nothing |
| Lists.ScanSound | core/tx_list.go:346-363 | kept, removed and invalidated partition the contents; removed are exactly the unpayable ones; kept ones lie below everything else in strict mode |
| Lists.StrictPrefix | core/tx_list.go:346-363 | filtering an interval of nonces in strict mode leaves a prefix of it |
| Lists.RemovePrefix | core/tx_list.go:375-386 | removing from an interval in strict mode leaves the prefix before the nonce and hands back the rest |
| Lists.RemoveSound | core/tx_list.go:375-386 | kept, removed and invalidated partition the contents |
| Lists.KeepPrefix | core/tx_list.go:147-168 | capping an interval leaves a prefix of it |
| Priced.PricedList.Put | core/tx_list.go:469-471 | pushes an entry; every live transaction keeps its own |
| Priced.PricedList.Removed | core/tx_list.go:476-491 | counts a stale entry and, past a quarter, rebuilds the heap from the live set |
| Priced.PricedList.Underpriced | core/tx_list.go:526-548 | true exactly for a non-local transaction priced at or below every live one of a non-empty pool |
| Priced.PricedList.Cap | core/tx_list.go:495-522 | returns exactly the live non-local transactions below the threshold |
| Priced.PricedList.Discard | core/tx_list.go:552-575 | returns live non-local transactions by rising price and, at equal price, falling nonce, none of which is dearer than one left behind, or as dear with a lower nonce; all of them if there are fewer than asked; none twice if the heap had no duplicates |
| Heap.Init | core/tx_list.go:134-138 | any sequence becomes a heap of the same elements |
| Heap.Push | core/tx_list.go:95-97 | adds one element and keeps the heap |
| Heap.Pop | core/tx_list.go:108-112 | takes out the root, which nothing precedes |
| Heap.Fix | types/transaction.go:400-401 | restores the heap after one element was overwritten |
| Heap.Remove | core/tx_list.go:179-184 | takes out the element at any place |
| Heap.RootIsMinimal | core/tx_list.go:107-112 | nothing in a heap precedes its root |
| Gas.ComputeIntrinsicGas | core/state_transition.go:81-111 | the 64-bit computation fails exactly when the exact price does not fit 64 bits |
| Gas.IntrinsicGasTable | core/state_transition.go:81-111 | 21000 for a transfer and 53000 for a creation, 4 more for each zero byte and 68 more for each other byte; refused exactly above 64 bits |
| Iteration.TransactionsByPriceAndNonce.constructor | types/transaction.go:365-386 | starts with the input as what every account offers |
| Iteration.TransactionsByPriceAndNonce.Peek | types/transaction.go:389-394 | shows an account's first offer, none being dearer; nothing exactly when nothing is offered |
| Iteration.TransactionsByPriceAndNonce.Shift | types/transaction.go:397-405 | takes the offer shown, the account's next one following |
| Iteration.TransactionsByPriceAndNonce.Pop | types/transaction.go:410-412 | drops the account of the offer shown altogether |
| IteratorRuns.Drive | types/transaction.go:389-412 | any sequence of answers gives a run of the greedy merge, which stops early only when nothing is left |
| IteratorRuns.Greedy | types/transaction.go:333-394 | at every point of a run what is shown is at least as dear as the next transaction of every account not dropped |
| IteratorRuns.InOrder | types/transaction.go:397-405 | each account's transactions are shown in input order, without omissions |
| IteratorRuns.DropIsFinal | types/transaction.go:407-412 | nothing of an account is shown after it was dropped |
| IteratorRuns.TakesAll | types/transaction.go:397-405 | a run to the end shows the whole list of each account it never drops |
| IteratorRuns.Permutation | types/transaction.go:365-412 | a run to the end that drops none is a permutation of the input |
| Execution.GasPool.AddGas | core/gaspool.go:29-35 | adds gas where the sum fits 64 bits |
| Execution.GasPool.SubGas | core/gaspool.go:39-45 | takes gas exactly when there is enough |
| Execution.StateTransition.UseGas | core/state_transition.go:145-152 | takes gas exactly when there is enough |
| Execution.StateTransition.BuyGas | core/state_transition.go:154-169 | the two failures, and otherwise the purchase from pool and sender |
| Execution.StateTransition.PreCheck | core/state_transition.go:171-182 | the four early failures in order, each leaving everything as it was |
| Execution.RejectionIff | core/state_transition.go:154-182 | which failure it is: nonce first, then the sender's balance, then the gas of the block, each exactly when the ones before it do not apply |
| Execution.StateTransition.Execute | core/state_transition.go:195-227 | pays the intrinsic gas and runs the machine; the late failures and when each occurs |
| Execution.MachineSees | core/state_transition.go:195-216 | the machine starts with the gas less its intrinsic part, from a state in which the sender has paid for all of it and its nonce is one higher, or the same on a contract creation; nothing else differs |
| Execution.StateTransition.RefundGas | core/state_transition.go:234-249 | returns gas left plus a refund of at most half the gas consumed to sender and pool; the pool cannot overflow |
| Execution.StateTransition.TransitionDb | core/state_transition.go:187-232 | a success conserves the total balance but for what the machine loses, pays the coinbase gas used times price and lowers the pool by exactly the gas used; every failure with its cause and what it leaves behind |
| Execution.AppliedPays | core/state_transition.go:228-249 | every account has what the machine left it, the sender besides the price of the gas not used and the coinbase that of the gas used; the refund is the counter or half of the gas consumed, whichever is less |
| Execution.UsedAtLeast | core/state_transition.go:234-254 | at least half of the intrinsic gas is used up |
| Execution.ConserveRun | core/state_transition.go:187-218 | buying gas and running the machine takes exactly the purchase and what the machine loses out of the total, and that loss is not negative |
| Execution.ConserveSettlement | core/state_transition.go:228-249 | refund and coinbase payment put exactly the purchase back |
| Execution.Refund | core/state_transition.go:235-239 | at most half of what was consumed and at most the counter, and as much as those allow |
| Execution.FinalisedTotal | core/state/statedb.go:534-558 | the end of a transaction takes out of the total exactly what destroyed accounts still held |
| StateDb.Search | core/state/statedb.go:514-516 | binary search finds the first snapshot not older than the one asked for |
| StateDb.StateDB.Snapshot | core/state/statedb.go:504-509 | a snapshot is new, the latest, and keeps the state as it is |
| StateDb.StateDB.RevertToSnapshot | core/state/statedb.go:512-525 | puts back the state of a snapshot still kept and drops it with all later ones; panics exactly when it is not kept, which is the answer false |
| StateDb.StateDB.Finalise | core/state/statedb.go:534-579 | deletes destroyed accounts, zeroes the refund counter and keeps no snapshot |
| Processing.ApplyTransaction | core/state_processor.go:114-171 | exact gas, receipt, state and snapshots for every outcome: a public half that fails counts no gas as used and keeps all snapshots, one that goes through is booked and ends the transaction also when the private half then breaks; a private half takes its own gas; the receipt says failed exactly when the machine run was reverted |
| Processing.BookExactly | core/state_processor.go:114-171 | a transaction is booked exactly when its nonce is current, its sender can pay for gas and transfer, the block has the gas, the intrinsic gas is covered and the private half does not break; then the receipt tells how the machine run ended, and the books move by the gas it used and what the private half took |
| Processing.BookPays | core/state_processor.go:131-139 | and each account has what the run left it plus its pay, or nothing if it was destroyed |
| Processing.ReceiptStatus | core/state_processor.go:131-145 | over any booked list each receipt says failed exactly when the machine run of its transaction, from the state those before it left, was reverted |
| Processing.ApplyAll | core/state_processor.go:88-102 | applying a list of transactions is booking it: it succeeds exactly when every transaction can be booked on what those before it left |
| Processing.BooksBalance | core/state_processor.go:88-102 | a booked list has one receipt for each transaction, in order, with running sums; gas used and left keep to the limit, and make it up exactly when no private half ran |
| Processing.BooksTotal | core/state_processor.go:131-139 | booking a list takes out of the total exactly what accounts destroyed in it took with them, in the machine or at the end of their transaction |
| Processing.TidyBurnsNothing | core/state/statedb.go:548-549 | that is nothing if the machine loses no money, leaves none with a destroyed account and destroys neither sender nor coinbase |
| Processing.Replay | core/state_processor.go:160-170 | a list that can be booked can be booked again with more gas at hand and on a node that may not see the private halves, with the same state, receipts and gas used |
| Processing.Finalize | consensus/dpor/consensus.go:248-258 | the end of a block pays the reward to the coinbase unless that is the zero address |
| Processing.RewardTable | configs/protocol_params.go:79-105 | 12.65, 9.51, 7.13, 5.39 and 4.03 coins a block for one year each, and nothing after block 15785280 |
| Processing.ClosedPays | consensus/dpor/consensus.go:248-254 | the reward goes to the coinbase and nobody else |
| Processing.ClosedTotal | consensus/dpor/consensus.go:230-254 | it adds to the total exactly the reward of the block number, or nothing for the zero address |
| Processing.Process | core/state_processor.go:69-108 | succeeds exactly when every transaction can be booked; then receipts are in block order with running sums, gas used is their sum and keeps to the limit together with what is left (exactly, without running private halves), and the total balance grows by exactly the reward less what destroyed accounts took with them; each receipt says failed exactly when its machine run was reverted |
| Processing.RunningSum | core/state_processor.go:139-145 | the last cumulative figure is the sum of all receipts' gas |
| Processing.SetReceiptsData | core/blockchain.go:918-941 | fails exactly on a count mismatch, else fills in transaction and own gas of every receipt |
| Processing.ReceiptsBack | core/blockchain.go:936-941 | differences of cumulative gas give back each processed receipt in full |
| Packing.Work.constructor | miner/engine.go:355-381 | new work is empty |
| Packing.Try | miner/engine.go:577-587 | snapshot, application and return to the snapshot: packed exactly when it goes through, and otherwise turned away for the exact reason; the return panics exactly when the public half went through and the private half broke |
| Packing.Work.CommitTransaction | miner/engine.go:577-596 | a success, exactly when the transaction goes through, is booked; a failure has the exact reason; a failure puts the state back but not the gas pool; it panics exactly when the public half goes through and the private half breaks; whatever else happens the work keeps mirroring its transactions |
| Packing.MirrorsBalanced | miner/engine.go:577-596 | work that mirrors its transactions has one receipt for each, in order, with running sums, and gas used and left within the block limit; each receipt says failed exactly when its machine run was reverted |
| Packing.MinedTotal | miner/engine.go:577-596 | and its total balance is that before them, less what destroyed accounts took with them |
| Packing.MinedIff | core/state_processor.go:69-108 | what a miner packed another node accepts exactly when no private half breaks there and before each transaction the limit less the public gas of the receipts and the private gas so far is at least its gas; it then has the same state, gas used and receipts |
| Processing.ReplayIff | core/state_processor.go:88-170 | the same of any list one node could book |
| Packing.MinedIsValid | core/state_processor.go:160-170 | so it is accepted wherever no private half is seen that the miner could not see |
| Packing.TurnedDown | core/state_processor.go:158-165 | a miner packs two transfers that just fit; a node where the private half of the first takes one unit of gas turns the block down |
| Packing.CrashExample | miner/engine.go:582-587 | a free transfer whose private half breaks crashes the miner |
| Packing.Work.CommitNext | miner/engine.go:528-556 | tries the transaction shown, with the exact outcome on the books, and unless that panics leaves nothing of its account on a gas-limit or nonce-too-high failure and otherwise all but that transaction |
| Packing.Work.PackLoop | miner/engine.go:498-557 | the loop ends because every pass takes or drops an offer; each transaction shown comes out exactly as it must on the books it is tried on, and crashes the loop exactly when it goes through and its private half breaks; without a crash what it packs is exactly what went through, in the order of a greedy run |
| Packing.Work.CommitTransactions | miner/engine.go:491-557 | without a crash stops only when time is up, the gas left cannot pay a transfer or nothing is offered, with work that mirrors its transactions; does not crash if no private half breaks; after a gas-limit or nonce-too-high failure nothing more of that account is shown, up to there its transactions come in order, and if all offers are used up every account without such a failure was shown in full |
| Packing.PackedInOrder | miner/engine.go:525-556 | the same of any stretch of packing |
| BlockTree.PathIsChain | core/blockchain.go:712-724 | following parents from a rooted block gives a chain numbered from genesis |
| BlockTree.PathPrefix | core/blockchain.go:1620-1660 | going down a path stays on it |
| BlockTree.ForkUnique | core/blockchain.go:1644-1660 | two paths have one lowest common ancestor, so the chain's walk and the pool's stop at the same one |
| BlockTree.BranchHas | core/tx_pool.go:458-480 | the transactions collected on a walk are exactly those of the blocks above its end |
| BlockTree.WalkStep | core/tx_pool.go:458-480 | one step down keeps the walk on its path, and a missing parent means the head is not rooted |
| ChainIndex.EnterBlockEntered | core/rawdb/accessors_indexes.go:43-58 | writing a block's entries points each of its transactions at its place and leaves the others alone |
| ChainIndex.RenumberedChain | core/blockchain.go:1671-1680 | numbering the new branch turns the old chain's number map into the new chain's, if that is at least as long |
| ChainIndex.ReorgIndex | core/blockchain.go:1671-1690 | writing the new branch and deleting what only the old one had leaves exactly the new chain's index |
| ChainIndex.TxDifference | types/transaction.go:305-320 | the members of the first list that are not in the second, in order |
| Chain.BlockChain.constructor | core/blockchain.go:213-285 | a chain of the genesis block alone |
| Chain.BlockChain.Insert | core/blockchain.go:620-637 | makes a block the head under its number; the other heads follow unless it was canonical before |
| Chain.BlockChain.WriteTxLookupEntries | core/rawdb/accessors_indexes.go:43-58 | the loop writes one entry for each transaction of the block |
| Chain.BlockChain.LevelDown | core/blockchain.go:1619-1638 | brings the higher head down to the other's number, or finds the new chain not rooted |
| Chain.BlockChain.FindFork | core/blockchain.go:1619-1660 | finds the lowest common ancestor, the blocks to insert and the transactions dropped; fails exactly when the new chain is not rooted |
| Chain.BlockChain.InsertBranch | core/blockchain.go:1672-1680 | inserts the new branch from the fork upwards |
| Chain.BlockChain.Reorg | core/blockchain.go:1593-1690 | moves number map and index to the new branch, or fails and changes nothing |
| Chain.BlockChain.WriteBlock | core/blockchain.go:1119-1169 | a higher block wins, an equally high one by the coin; whoever wins, the number map is the ancestry of the head and the index exactly its transactions; a loser is filed, a failure changes nothing |
| Chain.NewTip | core/blockchain.go:621-634 | the tip of a new branch was not canonical, so all heads move to it |
| ResetWalk.WalkToFork | core/tx_pool.go:441-480 | for rooted heads ends at the lowest common ancestor with the old branch's transactions that the new branch lacks; gives up when just one head is rooted |
| ResetWalk.Reinjected | core/tx_pool.go:441-483 | what a reset puts back is exactly what was on the old chain and is not on the new one, or nothing if the heads are more than 64 numbers apart |
| ResetWalk.DroppedExactly | types/transaction.go:305-320 | missing from the new branch is the same as missing from the new chain |
| Ancestry.GetAncestor | core/headerchain.go:311-341 | an answer is the true n-th ancestor; other than for a parent, the call fails exactly when more links leave the canonical chain than the budget allows, and the budget goes down by the links followed |
| Ancestry.CanonicalWalk | core/headerchain.go:324-327 | on the canonical chain the n-th ancestor is the canonical hash n numbers below |
| Ancestry.ChainLinked | core/blockchain.go:620-637 | the number map the chain keeps is parent-linked |
| Indexer.ChainIndexer.constructor | core/chain_indexer.go:80-97 | a new indexer has no sections |
| Indexer.ChainIndexer.SetValidSections | core/chain_indexer.go:392-404 | removes exactly the heads of the sections given up |
| Indexer.ChainIndexer.Rollback | core/chain_indexer.go:208-229 | a reorganisation gives up the section of the fork and all later ones; the heads left are those of the new chain |
| Indexer.ChainIndexer.Advance | core/chain_indexer.go:231-246 | the known sections after a head is announced |
| Indexer.ChainIndexer.ProcessSection | core/chain_indexer.go:328-357 | an answer is the hash of the section's last block; there is one whenever the backend works and the section is complete |
| Indexer.ChainIndexer.Update | core/chain_indexer.go:264-309 | stores the next section's head or stops until the next notice; stored heads stay those of the chain |
| Indexer.ChainIndexer.Announce | core/chain_indexer.go:189-203 | after any new head the stored heads are those of the new chain, with the exact numbers of known and stored sections |
| Indexer.ChainIndexer.React | core/chain_indexer.go:189-203 | one event, of any kind and to any height, leaves the stored heads those of the chain announced; one that does not lower the head keeps the known sections confirmed |
| Indexer.ChainIndexer.Follow | core/chain_indexer.go:162-322 | over any run of announcements, to higher and to lower heads, and section updates every stored head is the hash of its section's last block on the chain announced last and none is stored at or above the count; if no head got lower, known sections also end enough confirmations below the head |
| Indexer.GrownIff | core/chain_indexer.go:231-246 | known sections are confirmed after an announcement exactly when those kept were, and then none is missed |
| Indexer.KnownComplete | core/chain_indexer.go:231-246 | a known section is complete on the chain |
| Indexer.LoweredHead | core/chain_indexer.go:213-218 | an indexer that follows a chain of ten blocks down to its first nine counts a section as known that is not confirmed |
| Words.UnsignedBytes | accounts/abi/numbers.go:42-44 | a word read back is the number modulo the word's span |
| Words.SignedRoundTrip | accounts/abi/unpack.go:39-46 | two's-complement words read back as written |
| Abi.PackValue | accounts/abi/type.go:173-198 | fails exactly on a failing type check (`AbiLayout.ChecksIff`), else the encoding of the value, laid out as `AbiLayout.ValueLaid` says |
| AbiLayout.ChecksIff | accounts/abi/error.go:40-78 | the type check, constructor by constructor |
| AbiLayout.ValueLaid | accounts/abi/pack.go:26-82 | byte by byte: numbers in two's complement over a word, truth values as 0 or 1, addresses behind 12 zero bytes, fixed bytes and functions in front of zeros, text and blobs behind their length and in front of zeros up to a whole word, lists item by item |
| AbiLayout.ValueSize | accounts/abi/pack.go:26-32 | and in exactly so many whole words: text or a blob of n bytes takes one and n/32 rounded up |
| Abi.HeadSize | accounts/abi/argument.go:244-252 | the head size the encoder reckons with |
| Abi.Pack | accounts/abi/argument.go:233-278 | fails exactly on a wrong count or a failing type check, else a head region followed by the tails, at the places `AbiLayout.StaticArgument` and `AbiLayout.DynamicArgument` give |
| AbiLayout.PackedSize | accounts/abi/argument.go:233-278 | the encoding is the inline words of all arguments and then the dynamic arguments, in whole words |
| AbiLayout.StaticArgument | accounts/abi/argument.go:268-271 | each static argument is laid out behind the inline words of those before it |
| AbiLayout.DynamicArgument | accounts/abi/argument.go:260-276 | each dynamic argument is laid out behind all inline words and the dynamic arguments before it |
| AbiLayout.DynamicOffset | accounts/abi/argument.go:260-267 | its head word is the counted head plus the size of the dynamic arguments before it, a multiple of 32, and its true place if and only if no array holds arrays of more than one word |
| AbiLayout.CountedSnoc | accounts/abi/argument.go:244-252 | the counted head has a word for each argument, and for an array as many as its length |
| Abi.ReadBool | accounts/abi/unpack.go:53-67 | accepts exactly the two boolean words |
| Abi.LengthPrefixIff | accounts/abi/unpack.go:201-230 | there is an answer exactly when the length word and what it announces lie within the data and below the 63-bit limit, and it is what the offset word and the length word say |
| Abi.ForEachUnpack | accounts/abi/unpack.go:108-149 | the loop decodes the elements one step apart and stops at the first failure |
| Abi.FullElemSize | accounts/abi/unpack.go:96-105 | the product of nested array lengths in words |
| Abi.ArraySize | accounts/abi/argument.go:184-195 | the inline words of an array |
| Abi.FilterIndexed | accounts/abi/argument.go:71-79 | the loop gives the types of the non-indexed arguments |
| Abi.NonIndexedAt | accounts/abi/argument.go:71-79 | in order: the type of a non-indexed argument stands behind as many as there are non-indexed arguments before it |
| Abi.NonIndexedCount | accounts/abi/argument.go:60-68 | and there are as many as non-indexed arguments |
| Abi.UnpackValues | accounts/abi/argument.go:200-224 | decodes each argument where the inline words of those before it end |
| AbiRoundTrip.RoundTrip | accounts/abi/argument.go:200-278 | decoding an encoded argument list gives it back, big integers modulo 2^256; exactly the same list if and only if every big integer is an unsigned 256-bit one |
| AbiRoundTrip.OffsetIff | accounts/abi/argument.go:244-272 | a dynamic argument's offset points at its own tail if and only if no array holds arrays of more than one word |
| AbiRoundTrip.CountedIff | accounts/abi/argument.go:244-252 | the encoder's head count is right if and only if no array holds arrays of more than one word |
| AbiRoundTrip.NestedArrayFails | accounts/abi/argument.go:244-252 | a nested array in front of a string makes the encoding undecodable |
| AbiRoundTrip.StaticBack | accounts/abi/unpack.go:153-198 | a static value is read back from wherever its encoding sits |
| AbiRoundTrip.DynamicBack | accounts/abi/unpack.go:153-230 | a dynamic value is read back through the offset of its encoding |
| AbiRoundTrip.RecoveredIff | accounts/abi/unpack.go:47-48 | a value survives exactly when its big integers are unsigned 256-bit ones |
| AbiRoundTrip.DecodeTyped | accounts/abi/unpack.go:153-198 | whatever data is accepted, the value is one of the type and in range |
| AbiRoundTrip.DecodedIsStable | accounts/abi/argument.go:200-278 | values decoded from any data survive encoding and decoding |
| Dispatch.Client.constructor | api/rpc/client.go:223-247 | a new client waits for nothing |
| Dispatch.Client.Register | api/rpc/client.go:585-592 | a request is registered under all its ids and takes the send lock |
| Dispatch.Client.Sent | api/rpc/client.go:594-604 | a failed send takes exactly its ids off the waiting list; the lock is free again |
| Dispatch.Client.HandleResponse | api/rpc/client.go:647-671 | a response goes once to the request that waits for its id, whose channel is open and has room; a subscription is closed by it; others are ignored |
| Dispatch.Client.CloseRequestOps | api/rpc/client.go:610-627 | closes every waiting request exactly once and ends all subscriptions |
| Dispatch.Client.Turn | api/rpc/client.go:540-606 | one turn of the loop |
| Dispatch.TurnExactly | api/rpc/client.go:540-606 | what one turn does to any request and id: who is registered, who gets a response or is closed or marked unsent, who is subscribed, who still waits for what |
| Dispatch.Client.RunLoop | api/rpc/client.go:515-607 | over any run no channel is closed twice or sent on when closed or full; at the end every ordinary request got all its responses, was closed, or was never sent; what an ordinary request got is exactly what came in for ids it was waiting for |
| Dispatch.RunDelivers | api/rpc/client.go:540-606 | over any run an ordinary request has got an id exactly when it had before or a response came in while it waited for it |
| Dispatch.Balance | api/rpc/client.go:131-136 | delivered and outstanding ids make up the ids of an open ordinary request, in number too |
| Dispatch.RoomLeft | api/rpc/client.go:657-660 | the channel of a request that waits for an id has room for its response |

## Left out

- The EVM, state trie, RLP, Keccak, ECDSA, LevelDB and IPFS: foreign code; the machine is a parameter with a contract, the database is the maps of the model.
- The consensus engine apart from the block reward, block validation, state commit and trie garbage collection, future blocks: they change neither transactions nor balances.
- Locks, goroutines, tickers, metrics, logging, event feeds and the journal file: each locked operation is one step.
- 64-bit wrap-around of nonces, gas sums and section arithmetic: numbers are unbounded, except where the code itself tests for overflow.
- Pooling.TxPool.TruncateQueue: does not fix the order by heartbeat in which accounts lose their queues, because clocks are left out; it holds for every order.
- Pooling.TxPool.Evict: takes the idle accounts as a parameter, because lifetimes are wall-clock time.
- Pooling.TxPool.EnqueueTx: holds the account lists by value, so aliasing of list pointers is not modelled; `Lists.List` is the in-place list, proved equal to those values.
- Priced.PricedList.Removed: does not state the exact stale counter, because re-adding a transaction with a stale entry makes the counter drift; coverage does not depend on it.
- Pooling.TxPool.RemoveTx: does not state that the price entry left behind is counted as stale, because that count drifts in the same way; it only decides when the heap is rebuilt.
- Pooling.TxPool.ValidateTx: does not recover signatures, because a transaction record carries its sender and whether it is properly signed.
- Iteration.TransactionsByPriceAndNonce.constructor: takes each list under its sender's own address, as the source's comment demands; re-filing the others while ranging over the map has no fixed outcome in Go.
- StateDb.StateDB.RevertToSnapshot: a snapshot keeps the state itself, because undoing the journal entry by entry belongs to the state objects, and snapshots taken inside the machine are part of the machine.
- StateDb.StateDB.Finalise: deleting accounts that are empty is left out, because an account without balance and nonce reads like none.
- Processing.ApplyTransaction: logs, blooms, contract addresses and the private state are left out; a private half is the gas it takes and whether it breaks.
- Processing.Finalize: the state root and the assembled block are left out.
- Processing.SetReceiptsData: log positions and contract addresses are left out, because they only copy fields.
- Packing.Work.CommitTransactions: the rest of making a block (header, sealing, logs to subscribers) is left out; its reward is the one `Processing.Finalize` pays.
- Chain.BlockChain.WriteBlock: the write batch is applied as one step with the head change, and preimages, receipts and side-chain events are left out.
- Abi.PackValue: a value of the wrong Go type that would panic in reflection counts as a failing type check, and slices and arrays of Go are one kind of list.
- Abi.Pack: types the parser never yields (hash, fixed point) and the parser of type strings are left out, and indexed arguments are encoded like the others.
- AbiRoundTrip.RoundTrip: holds for static types, strings, bytes and slices of elementary types; slices of arrays and arrays of dynamic types are not laid out as the decoder reads them.
- Dispatch.Client.RunLoop: subscription delivery and the reconnect handshake are left out, and ids are taken to be distinct instead of 32-bit counters.
- Indexer.ChainIndexer.Update: the lock is held while a section is processed, and child indexers and trusted section heads are left out.
- Indexer.ChainIndexer.Follow: every new head has a common ancestor with the one before it; light synchronisation, where there may be none, is left out.
