# MAP protocol node: verified model

A Dafny model of the stateful core of the MAP protocol node, with proofs of what that core
promises.  It covers seven parts of the node:

* **Transaction pool.** One set of transactions is kept in per-sender queues, a hash table,
  two ordered sets of sender heads and tails, and a memory total.  Every operation patches
  all of them.  The model proves that they, and the log of listener notifications, describe
  the same set after any run; that the limits hold; that evictions are needed and hit the
  worst transaction; that scores stay with their transactions; and that the lazy pending iterator is greedy, ordered and agrees with
  `status`.
  (`PoolTypes`, `SenderQueue`, `PoolIndex`, `PoolReadiness`, `Pool`, `PoolRuns`,
  `PendingTrace`, `PendingIterator`, `PoolPolicies`; `Basics` holds what all parts share)
* **Inbound substreams of the P2P handler.** For every interleaving of responses, timeouts
  and transport answers, what reaches the wire is a prefix of what the stream was handed
  before its first termination, and every state taken out and left poisoned in the middle of a
  call is replaced before it ends. (`InboundHandler`)
* **Range sync.** A batch scheduler as a transition system over events; the imperative chain
  is shown to perform runs of it, to ask for exactly the blocks of the batches it issues, and
  whole runs of calls are composed from a new chain on.
  (`SyncSchedule`, `SyncBatches`, `RangeSync`, `SyncRuns`)
* **Staking list and stake accounting.** A doubly linked list stored as keyed entries refines
  a sequence of distinct validators, and the books of stakes, deposits and locked balances
  stay balanced over every run. (`ValidatorList`, `StakeAccounting`)
* **Trie node codec.** RLP and hex-prefix encoding (Ethereum Yellow Paper, Appendices B to D)
  with a decoder that returns byte ranges; decoding an encoded node cuts out what went in.
  (`Rlp`, `TrieCodec`)
* **State layers, executor and chain.** Overlay over trie, trie nodes in a reference-counted
  cache over a backend, execution of transfers, and append-only import of blocks.  The last theorems cross
  all of these: the state of any imported chain is one execution of its whole history, no run
  of imports creates or destroys funds exactly while every transaction conserves them, and no
  sender below 2^64 transactions uses a nonce twice.
  (`StateStore`, `HashBackends`, `Ledger`, `Executor`, `ChainStore`, `Blockchain`)
* **VRF.** The algebra by which a produced proof verifies and a value is unique. (`Vrf`)

Code that changes fields in place is a class; its methods are tied to functions or relations
on values, about which the lemmas are proved.

## Where the code does not do what it says or promises

Each of these is stated as a lemma or visible in a contract.  The code is modelled as it is.

* `Transactions::cull` hands back the dropped transactions last one first, although its
  comment says the order is kept (`SenderQueue.Transactions.Cull`).
* `remove_worst` passes the pooled transactions of the new sender for both sides of the
  replacement question (`TransactionPool.Pool.RemoveWorst`).
* An out-of-range batch moves the next id to process to its own id, possibly forward, so a
  batch can be processed before an earlier one that has not arrived
  (`SyncSchedule.OutOfRangeAnswerSkipsBatch`), and the chain may be dropped as complete with
  batches missing (`SyncRuns.PrematureRemoval`).  Order holds throughout a run exactly when
  every rejected batch was the next one (`SyncSchedule.RunKeepsSchedule`), and a removal of
  the chain is right exactly in those runs: in any other, blocks up to the target are missing
  (`SyncRuns.Run`).
* The range check on a downloaded batch accepts a last block at the exclusive end, which
  belongs to the next batch (`RangeSync.AcceptsForeignBlock`); the last block is the batch's
  own exactly otherwise (`RangeSync.AcceptedLastBlock`).
* A batch that failed, or whose request could not be sent, is never requested again and the
  chain stalls behind it (`SyncSchedule.LostBatchStalls`).  The retry counter is never raised
  and no earlier hash is kept, so a failed batch never removes the chain
  (`RangeSync.SyncingChain.OnBatchProcessResult`) and no peer is ever blamed for a corrected
  batch (`RangeSync.SyncingChain.ValidateProcessed`).
* Re-indexing in `start_syncing` keeps the schedule tidy exactly when nothing is in flight
  (`SyncSchedule.ReindexNeedsQuiescence`); `SyncRuns.Run` covers such restarts.
* Inserting a validator that is already in the list ties the links into a cycle
  (`ValidatorList.InsertKeepsListIffAbsent`).
* `lock_balance` does not check the balance; funds are kept exactly when the amount was
  available or the locked balance wraps as well (`Ledger.LockConserves`).
* Value plus fee is added with wrap-around in the executor's check, so a value near 2^128
  passes without being covered (`Executor.AcceptedIsCovered`).  Then a sender who can pay the
  fee pays it and the value is not moved (`Executor.OverflowingValueStays`); a sender who
  cannot gets funds from nothing (`Executor.OverflowingFeeMintsFunds`) or empties the receiver
  (`Executor.ReceiverLosesFunds`).  `Executor.TransferTotal`, `Executor.TxAndFeeConserve` and
  `Executor.BlockConservesFunds` give the exact conditions under which funds are kept.
* Reference counts of the caching store are summed in 32 bits: a count can wrap to zero and a
  node disappear (`HashBackends.CachingDB.Commit` gives the exact condition), which below 2^31
  cannot happen (`HashBackends.PlainCounts`).
* A string that cannot be read as RLP decodes as an empty node, and a two-item node with an
  empty path as an extension (`TrieCodec.DecodesIff`).
* An empty branch value, or an inline child that is an empty item, reads back as absent, and
  an inline child that is a 32-byte string reads back as a hash (`TrieCodec.BranchRoundTrip`,
  `TrieCodec.ExtensionRoundTrip`).
* A response that allows no others and arrives while a send is pending is dropped and closes
  the stream, with what is queued unsent (`InboundHandler.FinalEnds`), and a substream that fails while
  sending leaves its queue behind (`InboundHandler.Handler.DropStream`).
* An error ends a stream only if it finds the stream idle (`InboundHandler.FinalEnds`).  One
  that is queued behind a send does not, and chunks may follow it on the wire
  (`InboundHandler.ErrorThenChunk`, `InboundHandler.ErrorIsNotLast`).
* `exit` sets the exit height to zero (`StakeAccounting.ExitSound`).
* `import_block` panics when a block's transactions cannot be executed
  (`Blockchain.BlockChain.ImportBlock`).
* `find_ancestor` answers nothing for headers of different heights
  (`ChainStore.ChainDB.FindAncestor`).
* For a key that is minus the input's offset, a VRF proof is accepted only when its challenge
  happens to fit (`Vrf.ProducedProofIsAccepted`, `Vrf.ZeroExponentNeedsZeroChallenge`).

## Modelling decisions

* Hashes are injective; serialisation is an injective round trip.  Storage keys are
  constructors; for the chain database `ChainStore.KeyLayoutInjective` proves that the byte
  layout keeps them apart.
* Arithmetic is that of a release build, which wraps: 128-bit balances, 64-bit nonces, and
  32-bit reference counts with their casts.  The build files set no overflow checks, so a debug
  build would panic where the model wraps.
  Insertion ids, request ids and block numbers in sync are unbounded naturals.
* Iteration orders of hash maps are parameters, and results hold for every order.
* The transport is a function from the number of the question to its answer; the network's
  success in sending is a function of the request id.  What goes out to the network and to the
  block processor is kept as a sequence.
* A readiness check is a verdict on a transaction that may depend on everything asked before.
* A binary search is its specification, the first position not ordered before the key.
* `max_per_sender` is at least one, as the pool's eviction of a sender's cheapest transaction
  needs.  A scoring is required to be `Lawful`; `PoolPolicies` shows that the scoring and the
  readiness check of the pool's own tests are instances.
* The trie library is a parameter: the nodes that make up given contents, and the node
  removals and insertions by which an update turns one trie into another.  It removes only
  nodes of the old trie, each once, inserts all new ones, and none of them 2^31 times.
* Automatic induction is switched off on every lemma, so that each inductive proof stands in
  its body.
* The group of the VRF is represented by discrete logarithms modulo its prime order.

## Model

| member | source | states |
|---|---|---|
| `SenderQueue.SearchIsExact` | pool/src/transaction_pool/transactions.rs:60-69 | in a sorted queue a search hits a slot exactly when one compares equal, and only that one |
| `SenderQueue.SearchFindsMember` | pool/src/transaction_pool/transactions.rs:139-153 | every transaction of the queue is found at its own position |
| `SenderQueue.InsertKeepsSorted` | pool/src/transaction_pool/transactions.rs:94-137 | inserting at a free search position, or replacing the slot found, keeps the queue strictly sorted |
| `SenderQueue.AddKeepsQueueOk` | pool/src/transaction_pool/transactions.rs:94-137 | every outcome of an addition leaves a strictly sorted queue of one sender with as many scores as transactions |
| `SenderQueue.StalePrefixUnique` | pool/src/transaction_pool/transactions.rs:155-195 | the stale prefix is the one length with only stale transactions before it and none at it |
| `SenderQueue.DroppingFits` | pool/src/transaction_pool/transactions.rs:139-153 | taking a slot out leaves every score with its own transaction, for any scoring that keeps slots together |
| `SenderQueue.CuttingFits` | pool/src/transaction_pool/transactions.rs:155-195 | so does cutting a prefix off |
| `SenderQueue.AddingFits` | pool/src/transaction_pool/transactions.rs:71-137 | so does every outcome of an addition |
| `SenderQueue.Transactions.constructor` | pool/src/transaction_pool/transactions.rs:22-35 | a queue is its two vectors |
| `SenderQueue.Transactions.WorstAndBest` | pool/src/transaction_pool/transactions.rs:49-58 | last and first transaction with their scores, or nothing for an empty queue |
| `SenderQueue.Transactions.FindNext` | pool/src/transaction_pool/transactions.rs:60-69 | a successor is found exactly when the transaction is there and not last, and it is the next one with its score |
| `SenderQueue.Transactions.PushCheapestTransaction` | pool/src/transaction_pool/transactions.rs:71-88 | a full queue refuses with its last score unless the limit is ignored; otherwise the transaction goes to the end and scores are updated |
| `SenderQueue.Transactions.UpdateScores` | pool/src/transaction_pool/transactions.rs:90-92 | scores become what the scoring makes of the event, transactions and order stay |
| `SenderQueue.Transactions.InsertAt` | pool/src/transaction_pool/transactions.rs:117-134 | the transaction is inserted before the slot; an overfull queue loses its last one |
| `SenderQueue.Transactions.Add` | pool/src/transaction_pool/transactions.rs:94-137 | the queue stays sorted and the answer and new contents are those of the case at the search position |
| `SenderQueue.Transactions.Remove` | pool/src/transaction_pool/transactions.rs:139-153 | removes exactly the slot that compares equal, with its score, or nothing |
| `SenderQueue.Transactions.CountStalled` | pool/src/transaction_pool/transactions.rs:155-170 | asks in order up to the first transaction that is not stale |
| `SenderQueue.Transactions.PopFront` | pool/src/transaction_pool/transactions.rs:172-190 | reversing, popping and reversing back drops a prefix and keeps the rest in order |
| `SenderQueue.Transactions.Cull` | pool/src/transaction_pool/transactions.rs:155-195 | drops exactly the longest stale prefix and returns it reversed; the rest keeps its order |
| `PoolIndex.RankIdentifies` | pool/src/transaction_pool/scoring.rs:116-132 | two sender ends of equal rank are the same transaction |
| `PoolIndex.UnindexSender` | pool/src/transaction_pool/pool.rs:240-262 | removing a sender's old end leaves an exact index of the other senders |
| `PoolIndex.IndexSender` | pool/src/transaction_pool/pool.rs:225-262 | inserting a sender's new end makes the index exact for it too |
| `PoolIndex.SameEndKeepsIndex` | pool/src/transaction_pool/pool.rs:244-262 | an index is left exact when the end is the same and is not touched |
| `PoolIndex.PatchedIsIndexed` | pool/src/transaction_pool/pool.rs:220-263 | the incremental patch for one sender yields the exact index of all ends |
| `PoolIndex.MovedIsIndexed` | pool/src/transaction_pool/pool.rs:220-263 | the same when the sender loses its entry because its queue is empty |
| `PoolIndex.CoreAfter` | pool/src/transaction_pool/pool.rs:220-263 | after one queue changed and both sets were patched, sets and queues agree again and the members are the expected ones |
| `PoolIndex.AddMembers` | pool/src/transaction_pool/transactions.rs:71-137 | each outcome adds exactly the new transaction and loses exactly the displaced one, and respects the sender limit |
| `PoolIndex.BackIsWorst` | pool/src/transaction_pool/pool.rs:269-303 | the back of the worst set is the tail with the lowest score in the pool, the latest of those |
| `PoolIndex.HashExactRemove` | pool/src/transaction_pool/pool.rs:212-217 | hash table and queues stay in agreement when both lose a transaction |
| `PoolIndex.HashExactAdd` | pool/src/transaction_pool/pool.rs:202-210 | and when both gain one and lose the one it displaced |
| `PoolIndex.HashExactPurge` | pool/src/transaction_pool/pool.rs:367-381 | and when both lose a batch |
| `PoolIndex.MemSumRemove` | pool/src/transaction_pool/pool.rs:212-217 | the memory total splits at any transaction |
| `PoolIndex.MemSumInsert` | pool/src/transaction_pool/pool.rs:202-210 | the memory total grows by a new transaction's use |
| `PoolIndex.CulledMembers` | pool/src/transaction_pool/pool.rs:367-381 | culling a prefix of one queue removes exactly those transactions from the pool |
| `PoolIndex.LeavesQueue` | pool/src/transaction_pool/pool.rs:318-333 | dropping one slot is leaving the pool: exactly that transaction goes and the other queues are as they were |
| `PoolIndex.FairAdded` | pool/src/transaction_pool/pool.rs:164-200 | an addition leaves every score in the pool with its own transaction |
| `PoolIndex.OneMoreEviction` | pool/src/transaction_pool/pool.rs:149-161 | dropping the worst transaction while there is no room, because the policy prefers the new one, extends a run of evictions |
| `PoolIndex.EvictionsInTurn` | pool/src/transaction_pool/pool.rs:149-161 | the evictions for the count limit and then for memory form one run |
| `PoolReadiness.Classify` | pool/src/transaction_pool/pool.rs:467-485 | a queue splits into stale, ready and future transactions without remainder |
| `PoolReadiness.ClassifyCounts` | pool/src/transaction_pool/pool.rs:467-485 | a split counts the stale and the ready answers before the first future one and everything from that one on as future |
| `PoolReadiness.LocalClassify` | pool/src/transaction_pool/pool.rs:467-485 | with readiness local to senders, questions about others do not change the split |
| `PoolReadiness.LocalStalePrefix` | pool/src/transaction_pool/transactions.rs:155-170 | nor the stale prefix |
| `PoolReadiness.FlattenMembers` | pool/src/transaction_pool/pool.rs:467-485 | visiting each sender once meets each pooled transaction once |
| `PoolReadiness.CountByHash` | pool/src/transaction_pool/pool.rs:467-485 | the queues together hold as many transactions as the hash table |
| `PoolReadiness.CulledStep` | pool/src/transaction_pool/pool.rs:367-381 | culling one sender leaves every other queue and its history alone |
| `PoolReadiness.CullAdvances` | pool/src/transaction_pool/pool.rs:384-401 | a cull that dealt with some senders extends to one more |
| `PoolReadiness.StatusAdvances` | pool/src/transaction_pool/pool.rs:467-485 | a status over some senders extends to one more |
| `TransactionPool.Pool.constructor` | pool/src/transaction_pool/pool.rs:93-109 | an empty pool is consistent |
| `TransactionPool.Pool.UpdateSendersWorstAndBest` | pool/src/transaction_pool/pool.rs:220-263 | moves one sender's entries in both ordered sets and forgets an empty sender |
| `TransactionPool.Pool.RemoveFromSet` | pool/src/transaction_pool/pool.rs:318-333 | exactly one transaction leaves its queue, which is rescored, and the ordered sets, which stay exact; no other queue changes |
| `TransactionPool.Pool.TakeOut` | pool/src/transaction_pool/pool.rs:318-333 | the queue loses exactly the slot of that transaction, the rest keeps its order and is rescored for that removal; its ends before and after are reported |
| `TransactionPool.Pool.FinalizeRemove` | pool/src/transaction_pool/pool.rs:212-217 | hash table and memory total lose one transaction |
| `TransactionPool.Pool.FinalizeInsert` | pool/src/transaction_pool/pool.rs:202-210 | hash table and memory total gain the new transaction and lose the replaced one |
| `TransactionPool.Pool.RemoveWorst` | pool/src/transaction_pool/pool.rs:269-315 | refuses with the score to beat, abstains or evicts, as the policy says about the worst-ranked transaction, and evicts exactly that one |
| `TransactionPool.Pool.Announce` | pool/src/transaction_pool/pool.rs:136-147 | a transaction that has left the queues is announced as dropped and leaves the hash table and the memory total |
| `TransactionPool.Pool.EvictWorst` | pool/src/transaction_pool/pool.rs:136-147 | one eviction attempt keeps all structures consistent; room made means exactly the worst one was dropped and announced |
| `TransactionPool.Pool.EvictWhileCrowded` | pool/src/transaction_pool/pool.rs:149-161 | terminates; each drop hits the worst transaction of that moment while the limit is exceeded; a decisive policy ends in room or a refusal |
| `TransactionPool.Pool.MakeRoom` | pool/src/transaction_pool/pool.rs:149-161 | both limits in turn; nothing is dropped when there is room |
| `TransactionPool.Pool.AddToSender` | pool/src/transaction_pool/pool.rs:164-175 | the sender's queue answers as its case demands, ordered sets follow, other queues stay |
| `TransactionPool.Pool.Settle` | pool/src/transaction_pool/pool.rs:177-198 | hash table, memory total, log and answer follow the outcome in the queue |
| `TransactionPool.Pool.Place` | pool/src/transaction_pool/pool.rs:164-198 | adding a transaction there is room for keeps the pool consistent and answers as the queue does |
| `TransactionPool.Pool.Import` | pool/src/transaction_pool/pool.rs:123-199 | keeps the pool consistent in every case; known hashes change nothing; every drop hit the worst transaction of its moment while there was no room; then the policy's refusal or the answer of the queue left by the evictions; limits are kept under a decisive policy |
| `TransactionPool.Pool.Remove` | pool/src/transaction_pool/pool.rs:352-364 | removes exactly that hash, or nothing, and announces it as invalid or canceled |
| `TransactionPool.Pool.Clear` | pool/src/transaction_pool/pool.rs:338-347 | empties every structure and announces each transaction once |
| `TransactionPool.Pool.DrainHashes` | pool/src/transaction_pool/pool.rs:338-347 | each drained transaction is announced as dropped |
| `TransactionPool.Pool.UpdateScores` | pool/src/transaction_pool/pool.rs:451-464 | rescoring one sender keeps ordered sets exact and changes no other queue |
| `TransactionPool.Pool.Purge` | pool/src/transaction_pool/pool.rs:367-381 | hash table and memory total lose a culled batch, each announced as culled |
| `TransactionPool.Pool.CullSender` | pool/src/transaction_pool/pool.rs:367-381 | one queue loses exactly its stale prefix and is rescored for that, and the ordered sets follow |
| `TransactionPool.Pool.RemoveStalled` | pool/src/transaction_pool/pool.rs:367-381 | the stale prefix of one sender leaves every structure |
| `TransactionPool.Pool.Cull` | pool/src/transaction_pool/pool.rs:384-401 | the listed senders lose exactly their stale prefixes, the others nothing; counts the removed |
| `TransactionPool.Pool.Status` | pool/src/transaction_pool/pool.rs:467-485 | stalled, pending and future add up to the number of transactions; with local readiness the counts are the per-sender ones in any order |
| `TransactionPool.CountQueue` | pool/src/transaction_pool/pool.rs:470-480 | counts one queue and stops at the first future transaction |
| `PoolRuns.Perform` | pool/src/transaction_pool/pool.rs:123-464 | each operation keeps the pool consistent, and the limits under a decisive policy |
| `PoolRuns.Run` | pool/src/transaction_pool/pool.rs:123-464 | after any run from an empty pool all structures describe one set of transactions, every score is one of its own transaction, and with decisive policies and no exempt sender count, memory and per-sender limits hold |
| `PendingTrace.HeadsAdvance` | pool/src/transaction_pool/pool.rs:584-616 | examining a head and inserting its successor keeps the set of heads exact |
| `PendingTrace.RunAdvances` | pool/src/transaction_pool/pool.rs:584-616 | a run stays ordered per sender, greedy and truthful |
| `PendingTrace.LocalAnswers` | pool/src/transaction_pool/pool.rs:584-616 | with local readiness each sender is answered as if asked alone |
| `PendingTrace.ReadyBySender` | pool/src/transaction_pool/pool.rs:584-616 | ready answers of an interleaved run are the sum over senders |
| `PendingTrace.ClosedSenderCounts` | pool/src/transaction_pool/pool.rs:584-616 | a sender examined to its end yields its number of ready transactions |
| `PendingTrace.PendingMatchesStatus` | pool/src/transaction_pool/pool.rs:467-485 | an exhausted run yields exactly as many transactions as status counts as pending |
| `PendingIteration.PendingIterator.Pending` | pool/src/transaction_pool/pool.rs:424-427 | starts with exactly the sender heads |
| `PendingIteration.PendingIterator.PendingFromSender` | pool/src/transaction_pool/pool.rs:429-443 | starts with one sender's head |
| `PendingIteration.PendingIterator.Following` | pool/src/transaction_pool/pool.rs:593-604 | the next transaction of the head's sender |
| `PendingIteration.PendingIterator.Step` | pool/src/transaction_pool/pool.rs:584-616 | examines the best head, never one examined before |
| `PendingIteration.PendingIterator.Next` | pool/src/transaction_pool/pool.rs:584-616 | terminates and hands out the next ready transaction, or nothing when all heads are exhausted |
| `PendingIteration.PendingIterator.Collect` | pool/src/transaction_pool/pool.rs:584-616 | draining terminates with nothing left to examine |
| `PendingIteration.PendingAndStatus` | pool/src/transaction_pool/pool.rs:424-485 | with local readiness the pending iterator yields exactly status().pending transactions, and status covers the pool |
| `PoolPolicies.DummyScoringIsLawful` | pool/src/transaction_pool/tests/helper.rs:20-62 | scoring by gas price meets what the pool assumes, gives every transaction its own price or zero, and honours the sender limit unless told to always insert |
| `PoolPolicies.DearerReplaces` | pool/src/transaction_pool/tests/helper.rs:20-62 | a pooled transaction is replaced exactly by a dearer one of its nonce, and transactions of different nonces never compete |
| `PoolPolicies.NonceReadyIsLocal` | pool/src/transaction_pool/tests/helper.rs:80-104 | readiness by nonce depends only on the sender's own history |
| `PoolPolicies.ExpectedNonceIsFirstGap` | pool/src/transaction_pool/tests/helper.rs:80-104 | the expected nonce is the first one missing from the minimum on |
| `PoolPolicies.ReadyIffNoGap` | pool/src/transaction_pool/tests/helper.rs:80-104 | a transaction is ready exactly when no nonce between the minimum and its own is missing, and stale exactly below the minimum |
| `InboundHandler.PrefixStopsBeforeTermination` | network/src/p2p/handler.rs:336-403 | termination-free frames that follow what was handed over stop before the first termination |
| `InboundHandler.TouchOne` | network/src/p2p/handler.rs:336-621 | a step that touches one stream and leaves it in order leaves the handler in order, even if that stream was poisoned meanwhile |
| `InboundHandler.Handler.constructor` | network/src/p2p/handler.rs:192-217 | no streams, nothing sent |
| `InboundHandler.Handler.InjectFullyNegotiatedInbound` | network/src/p2p/handler.rs:263-293 | a request gets a fresh id and an idle stream; a goodbye gets none |
| `InboundHandler.Handler.TakeOut` | network/src/p2p/handler.rs:347-349 | swaps a state for the poisoned one: the handler is out of order until it is put back |
| `InboundHandler.Handler.InjectResponse` | network/src/p2p/handler.rs:336-403 | the stream's next state and queue for every state and kind of response; no other stream changes; unknown ids are ignored |
| `InboundHandler.Handler.CloseExpired` | network/src/p2p/handler.rs:144-185 | what a timeout does in each state |
| `InboundHandler.Handler.PurgeExpired` | network/src/p2p/handler.rs:491-509 | expired timers are gone and had their effect, other streams are untouched, no stream is dropped, nothing sent is taken back |
| `InboundHandler.Handler.PutBack` | network/src/p2p/handler.rs:350-395 | putting a state back in place of the poisoned one brings all tables in order again |
| `InboundHandler.Handler.ApplyQueuedResponses` | network/src/p2p/handler.rs:751-776 | replaces the poisoned state: takes the first queued response, closes on a termination, goes idle only with an empty queue |
| `InboundHandler.Handler.DropStream` | network/src/p2p/handler.rs:565-600 | removes a poisoned stream with its timer, and its queue only when it closed in order |
| `InboundHandler.Handler.TakeNext` | network/src/p2p/handler.rs:551-587 | an open stream takes its next queued response, closes at a termination with all that was due sent, or goes idle |
| `InboundHandler.Handler.PollSend` | network/src/p2p/handler.rs:539-580 | a send that is done leads on or to closing, one that waits leaves the stream as it was, one that fails drops it and keeps its queue |
| `InboundHandler.Handler.PollClose` | network/src/p2p/handler.rs:588-611 | a closing stream goes with its timer and queue unless the transport makes it wait |
| `InboundHandler.Handler.DriveOnce` | network/src/p2p/handler.rs:528-621 | one round sends, takes from the queue, closes or waits; it fails exactly when a send fails; a stream that has ended sends nothing; on every path the poisoned state is replaced or removed |
| `InboundHandler.Handler.DriveStream` | network/src/p2p/handler.rs:528-621 | driving terminates; if the transport never blocks, exactly everything before the first termination is sent, and the stream stays open exactly when there was none |
| `InboundHandler.Handler.DriveAll` | network/src/p2p/handler.rs:527-621 | drives every stream in turn; if the transport makes nobody wait none fails and all that is due is sent |
| `InboundHandler.Handler.PollInbound` | network/src/p2p/handler.rs:491-621 | a whole poll keeps the handler in order and only extends what was sent, and not on streams that have ended; if the transport makes nobody wait, every open stream sends all that was due, after a timeout the error too |
| `InboundHandler.ClosesAtTermination` | network/src/p2p/handler.rs:751-776 | when a termination is next in the queue, all that was due has been sent |
| `InboundHandler.WireIsPrefix` | network/src/p2p/codec/base.rs:73-81 | in every reachable state the frames are a prefix of what was handed over before the first termination, each has a response code, no state is poisoned and idle means an empty queue |
| `InboundHandler.Run` | network/src/p2p/handler.rs:336-621 | the same over every interleaving of requests, responses, timeouts and polls; no frame is ever taken back, and a stream that has ended sends nothing more |
| `InboundHandler.CodesReadBack` | network/src/p2p/methods.rs:139-166 | code zero means success, a termination has none, and every error is rebuilt from its code |
| `InboundHandler.FinalEnds` | network/src/p2p/handler.rs:350-391 | the one answer to a status request, or an error, handed to an idle stream is its last frame in every later run; handed to one that has ended it is never sent; a status answer handed to a sending stream is dropped and nothing queued is sent either |
| `InboundHandler.FinalCloses` | network/src/p2p/handler.rs:352-363 | if the transport makes nobody wait, such a stream is closing after one drive and gone after two |
| `InboundHandler.ErrorThenChunk` | network/src/p2p/handler.rs:364-381 | an error handed to an open stream that is sending does not end it: a later chunk follows it on the wire |
| `InboundHandler.ErrorIsNotLast` | network/src/p2p/handler.rs:765-768 | a stream that sends a chunk, an error and another chunk |
| `SyncSchedule.StepPartitioned` | network/src/sync/range_sync/chain.rs:166-243 | every event keeps every issued batch in exactly one place and at most six pending or completed |
| `SyncSchedule.DownloadCountsUp` | network/src/sync/range_sync/chain.rs:523-532 | the next download id always just counts up |
| `SyncSchedule.StepInOrder` | network/src/sync/range_sync/chain.rs:176-189 | in-order processing survives an event exactly when it is no out-of-range answer for another batch than the next one |
| `SyncSchedule.RunKeepsSchedule` | network/src/sync/range_sync/chain.rs:166-393 | over every run ids stay partitioned; order 1, 2, 3, ... holds all the way exactly when no out-of-range answer hits another batch than the next; a run loses no batch exactly when it is clean: no failed send, rejected answer or failed batch |
| `SyncSchedule.StepLoses` | network/src/sync/range_sync/chain.rs:166-393 | nothing lost comes back, and an event loses a batch exactly when it is not clean |
| `SyncSchedule.LostMeansNotAllDone` | network/src/sync/range_sync/chain.rs:489-536 | as long as no id past the target is issued, a lost batch means that not all batches are done |
| `SyncSchedule.FreshIsTidy` | network/src/sync/range_sync/chain.rs:105-132 | a new chain starts partitioned and in order |
| `SyncSchedule.OutOfRangeAnswerSkipsBatch` | network/src/sync/range_sync/chain.rs:176-189 | a run in which batch 4 is done, 2 has not arrived, 3 is lost, and four batches count as complete |
| `SyncSchedule.LostBatchStalls` | network/src/sync/range_sync/chain.rs:261-393 | once the next batch is lost no further batch is done, unless an out-of-range answer for another batch moves the id |
| `SyncSchedule.BatchesTile` | network/src/sync/range_sync/chain.rs:489-537 | every block after the start up to the target is in exactly one batch |
| `SyncSchedule.TargetReached` | network/src/sync/range_sync/chain.rs:134-138 | a next batch exists, and the chain counts as complete, exactly by the number of batches |
| `SyncSchedule.TargetMeansAllDone` | network/src/sync/range_sync/chain.rs:347-367 | processed in order, the target is reached exactly when every batch is done |
| `SyncSchedule.ReindexNeedsQuiescence` | network/src/sync/range_sync/chain.rs:410-422 | restarting ids gives the schedule of a new chain, and keeps the partition, exactly when nothing is pending or processed |
| `SyncBatches.ToBlocksByRangeRequest` | network/src/sync/range_sync/batch.rs:86-93 | the request starts where the batch does and ends where it does, or after five blocks |
| `SyncBatches.InsertKeepsInverse` | network/src/sync/range_sync/batch.rs:137-144 | the peer index stays the inverse exactly when the request id is new or keeps its peer |
| `SyncBatches.RemoveKeepsInverse` | network/src/sync/range_sync/batch.rs:146-160 | removing keeps the inverse and leaves no empty set |
| `SyncBatches.IdleIsExact` | network/src/sync/range_sync/batch.rs:177-179 | a peer without entry is one without request |
| `SyncBatches.PendingBatches.Insert` | network/src/sync/range_sync/batch.rs:137-144 | enters a request, returns what it overwrote |
| `SyncBatches.PendingBatches.Remove` | network/src/sync/range_sync/batch.rs:146-160 | removes and returns a request; the index stays the inverse |
| `SyncBatches.PendingBatches.AddBlock` | network/src/sync/range_sync/batch.rs:169-173 | appends a block to the batch of a known request only |
| `SyncBatches.PendingBatches.PeerIsIdle` | network/src/sync/range_sync/batch.rs:177-179 | idle exactly when no pending batch is assigned to the peer |
| `RangeSync.Network.BlocksByRangeRequest` | network/src/sync/network_context.rs:53-67 | takes a fresh request id whether or not sending succeeds; what is sent is recorded with its peer |
| `RangeSync.Network.DownvotePeer` | network/src/sync/network_context.rs:83-109 | takes a request id too |
| `RangeSync.SyncingChain.constructor` | network/src/sync/range_sync/chain.rs:105-132 | a new chain has an empty schedule |
| `RangeSync.RequestAsks` | network/src/sync/range_sync/batch.rs:86-93 | the request for a batch asks for exactly the blocks the batch covers |
| `RangeSync.FullEndsRight` | network/src/sync/range_sync/chain.rs:341-345 | a batch counts as full exactly when it ends with the last block it covers |
| `RangeSync.SyncingChain.GetNextPeer` | network/src/sync/range_sync/chain.rs:472-485 | some idle peer, or none when all are busy |
| `RangeSync.SyncingChain.GetNextBatch` | network/src/sync/range_sync/chain.rs:489-537 | a batch exactly while buffer and target leave room, with the range its id stands for, no retries and no earlier hash |
| `RangeSync.SyncingChain.SendRangeRequest` | network/src/sync/range_sync/chain.rs:451-467 | sends exactly when a peer is idle and a batch may be requested; the batch is issued to one idle peer, which is asked for exactly the blocks of that batch, or lost when it cannot be sent |
| `RangeSync.SyncingChain.RequestBatches` | network/src/sync/range_sync/chain.rs:443-447 | terminates even if sends fail; only issues batches, each with its request in the log, until no peer is idle or none may be requested |
| `RangeSync.SyncingChain.ProcessCompletedBatches` | network/src/sync/range_sync/chain.rs:219-257 | starts the next batch exactly when syncing, nothing is processed and it is completed, and hands the processor exactly its blocks |
| `RangeSync.SyncingChain.HandleCompletedBatch` | network/src/sync/range_sync/chain.rs:166-215 | an in-range batch arrives with its blocks, in id order; one out of range is rejected and its peer downvoted |
| `RangeSync.SyncingChain.OnBlockResponse` | network/src/sync/range_sync/chain.rs:146-161 | blocks collect in their batch; the end of the stream completes it with these blocks; unknown requests and other batches are left alone |
| `RangeSync.SyncingChain.ValidateProcessed` | network/src/sync/range_sync/chain.rs:313-339 | a peer is downvoted exactly when it first sent a batch that another peer corrected; since no batch is downloaded again, nobody is |
| `RangeSync.SyncingChain.OnBatchProcessResult` | network/src/sync/range_sync/chain.rs:261-393 | success removes the chain exactly when the next id passes the last batch, which in order means that every batch is done; failure loses the batch and never removes the chain; other ids do nothing |
| `RangeSync.SyncingChain.Succeeded` | network/src/sync/range_sync/chain.rs:300-367 | the batch is done, earlier doubtful batches are settled, and the chain is complete or goes on |
| `RangeSync.SyncingChain.Failed` | network/src/sync/range_sync/chain.rs:368-388 | only a batch with too many retries would remove the chain and its peers |
| `RangeSync.SyncingChain.Continue` | network/src/sync/range_sync/chain.rs:355-367 | more requests, then the next batch |
| `RangeSync.SyncingChain.DownvoteAll` | network/src/sync/range_sync/chain.rs:382-384 | every peer of the pool is downvoted and gone |
| `RangeSync.SyncingChain.AddPeer` | network/src/sync/range_sync/chain.rs:398-408 | adds the peer and may issue batches |
| `RangeSync.SyncingChain.StartSyncing` | network/src/sync/range_sync/chain.rs:410-432 | restarts ids when local progress is ahead, then processes and requests |
| `RangeSync.RequestTracked` | network/src/sync/range_sync/chain.rs:540-547 | a request to an idle peer keeps one request per peer and makes that peer busy |
| `RangeSync.AcceptedLastBlock` | network/src/sync/range_sync/chain.rs:176-187 | an accepted batch's last block is its own exactly when it is not before the start nor at the exclusive end |
| `RangeSync.EndIsNextStart` | network/src/sync/range_sync/chain.rs:176-187 | a block at the exclusive end belongs to the next batch, or lies past the target |
| `RangeSync.AcceptsForeignBlock` | network/src/sync/range_sync/chain.rs:176-187 | a batch that is accepted with a block of the next one |
| `SyncRuns.Perform` | network/src/sync/range_sync/chain.rs:146-432 | one call is a run of the schedule, after a restart of the ids if it makes one; in order, it asks to drop the chain exactly when all batches are done |
| `SyncRuns.AllDoneIsSynced` | network/src/sync/range_sync/chain.rs:134-138 | all batches are done exactly when every block up to the target is in one that is |
| `SyncRuns.RemovalIsRight` | network/src/sync/range_sync/chain.rs:347-367 | over any run: a dropped chain has all batches done exactly if the run was calm, and all batches are done exactly when the chain is dropped and no batch was ever lost |
| `SyncRuns.Run` | network/src/sync/range_sync/chain.rs:105-432 | any calls from a new chain, restarts of the ids with nothing in flight included: every request asks for the blocks of one batch, and the log of requests is that of the batches issued; jobs hold blocks that passed the check; ids stay partitioned with at most six in flight; the removal of the chain is right exactly if no out-of-range answer hit another batch than the next, and all blocks up to the target are there exactly when the chain is dropped and no batch was ever lost |
| `SyncRuns.PrematureRemoval` | network/src/sync/range_sync/chain.rs:176-189 | calls after which the chain is dropped as complete with batch 2 on its way and batch 3 lost |
| `StateStore.OverlayTwice` | core/src/state.rs:292-307 | changes that stay in the overlay after a commit change nothing more |
| `StateStore.OverlayChange` | core/src/state.rs:273-290 | an overlay with one more change is that change applied |
| `StateStore.ChangeNext` | core/src/state.rs:292-307 | committing change by change builds the overlay |
| `StateStore.StateDB.FromExisting` | core/src/state.rs:261-267 | a state opened at a readable root has its contents |
| `StateStore.StateDB.SetStorage` | core/src/state.rs:273-275 | writes one key |
| `StateStore.StateDB.GetStorage` | core/src/state.rs:277-286 | last write, else the committed trie |
| `StateStore.StateDB.RemoveStorage` | core/src/state.rs:288-290 | removes one key |
| `StateStore.StateDB.ApplyChanges` | core/src/state.rs:292-305 | whatever the order, the changes applied to the trie are the overlay |
| `StateStore.PersistedIsRead` | core/src/state.rs:71-78 | persisted nodes are read whatever is cached |
| `StateStore.EditedIsRead` | core/src/state.rs:292-305 | removals and insertions in the cache leave every node of the new trie readable |
| `StateStore.NullIsReadable` | core/src/state.rs:45-50 | the null root is readable without being stored |
| `StateStore.Archive.constructor` | core/src/state.rs:45-50 | an empty archive |
| `StateStore.Archive.Apply` | core/src/state.rs:84-98 | after removals and insertions every count is the number of insertions less that of removals, and every inserted node that was not removed counts as present |
| `StateStore.Archive.Update` | core/src/state.rs:58-98 | the new trie is readable and every trie that was stays so, since removals never reach the backend |
| `StateStore.StateDB.Commit` | core/src/state.rs:292-307 | the same root for every order of the changes; contents unchanged; every earlier root stays readable through the archive |
| `StateStore.CommitTwiceAndReopen` | core/src/state.rs:292-307 | committing again gives the same root, and reopening there the same contents |
| `HashBackends.CacheStaysAddressed` | core/src/state.rs:84-98 | insertions keep cached nodes under their own hash, and removals exactly unless a count wraps over a wrong value |
| `HashBackends.CountsMove` | core/src/state.rs:84-98 | an insertion counts one up for its node and a removal one down for its key, in 32 bits, and nothing else moves |
| `HashBackends.ArchiveDB.constructor` | core/src/state.rs:45-50 | an empty archive |
| `HashBackends.ArchiveDB.Get` | core/src/state.rs:71-78 | a readable node is the preimage of its hash |
| `HashBackends.ArchiveDB.Insert` | core/src/state.rs:84-88 | caches a node under its hash and counts one more insertion of it |
| `HashBackends.ArchiveDB.Remove` | core/src/state.rs:95-98 | counts one insertion less; exact condition for the cache to stay in order |
| `HashBackends.ArchiveDB.Commit` | core/src/state.rs:58-67 | in any order: no read changes and nothing persisted is lost or altered |
| `HashBackends.ContainsIsGet` | core/src/state.rs:176-214 | contains and get always agree |
| `HashBackends.SumWraps` | core/src/state.rs:142-145 | the 32-bit sum is right up to multiples of 2^32 |
| `HashBackends.PlainCounts` | core/src/state.rs:136-160 | below 2^31 the code panics exactly for negative counts, adds the changes and never wraps |
| `HashBackends.ReadsCountedNodes` | core/src/state.rs:176-198 | a node is found exactly when an insertion is pending or the 32-bit sum is positive; below 2^31, exactly when count plus changes is positive |
| `HashBackends.ProgressStep` | core/src/state.rs:136-160 | one drained entry panics only when its sum is negative, else gets that sum |
| `HashBackends.CommitEffect` | core/src/state.rs:136-160 | after a completed commit every count is the sum, and a read changed exactly where an insertion wrapped it to zero |
| `HashBackends.CachingDB.constructor` | core/src/state.rs:119-124 | an empty store |
| `HashBackends.CachingDB.Get` | core/src/state.rs:176-198 | a readable node is the preimage of its hash |
| `HashBackends.CachingDB.Insert` | core/src/state.rs:216-218 | counts one more pending insertion |
| `HashBackends.CachingDB.Remove` | core/src/state.rs:224-226 | counts one less; exact condition for the cache to stay in order |
| `HashBackends.CachingDB.Commit` | core/src/state.rs:136-160 | in any order and for all 32-bit counts: gets through exactly when no sum is negative; then counts are the sums and a read changes exactly where an insertion wrapped to zero |
| `Ledger.TotalRemove` | core/src/balance.rs:221-238 | the total of all funds splits at any entry |
| `Ledger.TotalStore` | core/src/balance.rs:235-238 | storing an account changes the total by the difference of its funds |
| `Ledger.LoadWithinTotal` | core/src/balance.rs:221-233 | no account owns more than the total |
| `Ledger.TransferConserves` | core/src/balance.rs:196-203 | a covered transfer moves exactly the amount, also to its own sender; any other changes nothing; the total is kept |
| `Ledger.TransferModulo` | core/src/balance.rs:196-203 | whatever wraps, a transfer changes the total by multiples of 2^128 only |
| `Ledger.SameFunds` | core/src/balance.rs:221-233 | the total depends on the loaded accounts only |
| `Ledger.LockConserves` | core/src/balance.rs:166-177 | locking keeps the total exactly when the amount was available or the locked balance wraps as well |
| `Ledger.Balance.LoadAccount` | core/src/balance.rs:221-233 | the stored account, or an empty one |
| `Ledger.Balance.SetAccount` | core/src/balance.rs:235-238 | writes one account |
| `Ledger.Balance.AddTo` | core/src/balance.rs:130-140 | adds to the balance, wrapping at 2^128 |
| `Ledger.Balance.SubFrom` | core/src/balance.rs:142-152 | subtracts from the balance, wrapping at 2^128 |
| `Ledger.Balance.Lock` | core/src/balance.rs:166-177 | moves available to locked balance, unchecked |
| `Ledger.Balance.BumpNonce` | core/src/balance.rs:118-128 | counts the nonce up, wrapping at 2^64 |
| `Ledger.Balance.Move` | core/src/balance.rs:196-203 | transfers when the balance covers the amount, else does nothing |
| `Executor.AcceptedIsCovered` | executor/src/lib.rs:46-66 | an accepted transaction is covered exactly when value plus fee fit in 128 bits |
| `Executor.ExecutedIffAcceptable` | executor/src/lib.rs:46-66 | a transaction is executed exactly when it is signed, carries the next nonce and is covered up to wrap-around, and each error says what is wrong |
| `Executor.BlockFailsAt` | executor/src/lib.rs:34-44 | a block fails exactly at its first transaction that is not acceptable where it stands |
| `Executor.ExecutedIsSigned` | executor/src/lib.rs:34-50 | every transaction of an executed block is signed |
| `Executor.BlockPays` | executor/src/lib.rs:34-66 | the books of a block: every balance changes by exactly what the address received, spent and paid, and the miner earns all fees |
| `Executor.TransferEffect` | executor/src/lib.rs:46-66 | where the money is after every accepted transaction: moved, fee only, or wrapped around |
| `Executor.TransferFrame` | executor/src/lib.rs:46-66 | nonce up by one, other accounts and all locked funds as before, total lower by the fee up to multiples of 2^128 |
| `Executor.TransferTotal` | executor/src/lib.rs:46-66 | the total falls by the fee exactly when value plus fee fit, or the sender can pay the fee, or the receiver's balance wraps |
| `Executor.TxAndFeeConserve` | executor/src/lib.rs:34-44 | transaction and fee keep the total exactly when nothing is minted or the miner's balance wraps it away; otherwise 2^128 is added |
| `Executor.BlockConservesFunds` | executor/src/lib.rs:34-44 | the total stays the same after every transaction of a block exactly when each conserves funds in the state it meets |
| `Executor.BlockFrame` | executor/src/lib.rs:34-44 | any executed block touches only accounts, moves no locked funds and changes the total by multiples of 2^128 |
| `Executor.FittingConserves` | executor/src/lib.rs:34-44 | it is enough that each value plus fee fits in 128 bits |
| `Executor.BlockNonces` | executor/src/lib.rs:34-44 | every nonce rises by exactly the number of the sender's transactions |
| `Executor.BlockNoncesConsecutive` | executor/src/lib.rs:46-66 | a sender's transactions carry consecutive nonces |
| `Executor.ExecConcat` | executor/src/lib.rs:34-44 | two lists in turn execute as one |
| `Executor.OverflowingFeeMintsFunds` | executor/src/lib.rs:46-66 | a value near 2^128 makes funds from nothing |
| `Executor.OverflowingValueStays` | executor/src/lib.rs:46-66 | an executed transaction whose value is not moved |
| `Executor.ReceiverLosesFunds` | executor/src/lib.rs:46-66 | an executed transaction that empties its receiver while the total is kept |
| `Executor.ExcTransferTx` | executor/src/lib.rs:46-66 | executed exactly when signed, with the next nonce and covered up to wrap-around; otherwise the first thing wrong is reported and nothing changes |
| `Executor.ExcTxsInBlock` | executor/src/lib.rs:34-44 | executes in order and commits, and then every transaction was signed; otherwise stops at the first that is not acceptable where it stands, with what is wrong with it |
| `ValidatorList.InsertPrepends` | core/src/staking.rs:120-151 | inserting an absent address prepends it |
| `ValidatorList.InsertPresentBreaks` | core/src/staking.rs:120-151 | inserting a present address leaves no list |
| `ValidatorList.InsertKeepsListIffAbsent` | core/src/staking.rs:120-151 | a list is left exactly when the address was absent |
| `ValidatorList.SetReplaces` | core/src/staking.rs:153-162 | setting a present item replaces it in place |
| `ValidatorList.DeleteRemoves` | core/src/staking.rs:164-194 | deleting removes exactly that node and relinks both neighbours |
| `ValidatorList.ListIsDeletable` | core/src/staking.rs:164-194 | any address may be deleted; an absent one changes nothing |
| `ValidatorList.SameList` | core/src/staking.rs:196-213 | a store represents at most one list |
| `ValidatorList.Staking.Insert` | core/src/staking.rs:120-151 | the writes of an insertion |
| `ValidatorList.Staking.SetItem` | core/src/staking.rs:153-162 | replaces in place, or inserts an absent address |
| `ValidatorList.Staking.Delete` | core/src/staking.rs:164-194 | the writes of a deletion |
| `ValidatorList.Staking.ValidatorSet` | core/src/staking.rs:196-213 | following the links terminates and returns exactly the represented sequence |
| `ValidatorList.Staking.GetValidator` | core/src/staking.rs:215-226 | finds an address exactly when it is in the sequence |
| `StakeAccounting.ValidateSound` | core/src/staking.rs:229-254 | registering enters the validator with its key and stake, moves the stake to the locked balance and keeps the books balanced |
| `StakeAccounting.DepositSound` | core/src/staking.rs:256-270 | depositing queues the amount, moves it to the locked balance and keeps the books balanced |
| `StakeAccounting.ExitSound` | core/src/staking.rs:290-299 | exiting changes only the exit height |
| `StakeAccounting.PaymentSound` | core/src/balance.rs:196-203 | moving available funds leaves stakes alone |
| `StakeAccounting.PaySound` | core/src/balance.rs:196-203 | transfers keep the books balanced |
| `StakeAccounting.BlockSound` | executor/src/lib.rs:34-44 | a block keeps the books balanced exactly when it keeps the total, and it does when every transaction conserves funds |
| `StakeAccounting.StepSound` | core/src/staking.rs:229-299 | every affordable operation keeps stakes, deposits and locked balances in agreement and the total unchanged |
| `StakeAccounting.RunSound` | core/src/staking.rs:229-299 | the same over every run |
| `StakeAccounting.GenesisSound` | core/src/genesis.rs:67-95 | the genesis state is balanced and holds exactly the allocation |
| `StakeAccounting.StakingModule.Validate` | core/src/staking.rs:229-254 | registers a validator with its stake |
| `StakeAccounting.StakingModule.Deposit` | core/src/staking.rs:256-270 | adds to a validator's deposits; an unknown address does nothing |
| `StakeAccounting.StakingModule.Exit` | core/src/staking.rs:290-299 | marks a validator's exit; an unknown address does nothing |
| `Rlp.BigEndianRoundTrip` | core/src/trie.rs:202-207 | length bytes read back |
| `Rlp.HeaderIsLocal` | core/src/trie.rs:102-106 | reading an item looks no further than the item |
| `Rlp.ValueIsItem` | core/src/trie.rs:202-207 | an encoded value is one data item with exactly that payload |
| `Rlp.ValueEncodingUnique` | core/src/trie.rs:202-207 | the encoding of a value is the only canonical data item that carries it |
| `Rlp.ListEncodingUnique` | core/src/trie.rs:202-251 | the encoding of a list is the only list item that carries its payload |
| `Rlp.ShortEncoding` | core/src/trie.rs:202-251 | Appendix B below 56 bytes: which bytes stand for themselves and which first byte the others get |
| `Rlp.LongEncoding` | core/src/trie.rs:202-251 | Appendix B from 56 bytes on: the first byte counts the length bytes, which are shortest and big-endian |
| `Rlp.BigEndianUnique` | core/src/trie.rs:202-251 | without a leading zero a length has one representation |
| `Rlp.CountedItem` | core/src/trie.rs:130-192 | every item that is counted can be found and read |
| `Rlp.ListIsItem` | core/src/trie.rs:202-251 | an encoded list is one list item with exactly that payload |
| `Rlp.ListCount` | core/src/trie.rs:130-192 | a list of n items counts n |
| `Rlp.ItemFound` | core/src/trie.rs:130-192 | each item of a list is found at its offset |
| `TrieCodec.PartialRoundTrip` | core/src/trie.rs:72-100 | an encoded path gives back nibbles and leaf flag for odd and even lengths |
| `TrieCodec.HexPrefix` | core/src/trie.rs:87-100 | Appendix C: the encoded path is the flags, padded to a whole byte, and then the path |
| `TrieCodec.IteratorPath` | core/src/trie.rs:76-84 | the path an extension gets from its iterator |
| `TrieCodec.PlannedNibbles` | core/src/trie.rs:87-100 | the planned range and offset cut out exactly the path |
| `TrieCodec.PairRoundTrip` | core/src/trie.rs:130-160 | a two-item node is recognised and its second item found |
| `TrieCodec.LeafRoundTrip` | core/src/trie.rs:202-207 | a leaf decodes to its path and exactly its value |
| `TrieCodec.ChildRoundTrip` | core/src/trie.rs:108-118 | a child handle cuts out the hash or the whole inline item |
| `TrieCodec.ExtensionRoundTrip` | core/src/trie.rs:209-224 | an extension decodes to its path and child; an inline 32-byte string comes back as a hash of those bytes, any other as itself |
| `TrieCodec.SlotsRoundTrip` | core/src/trie.rs:160-180 | the slots of a branch decode to its children, an inline 32-byte string to a hash of those bytes |
| `TrieCodec.BranchRoundTrip` | core/src/trie.rs:226-251 | a branch decodes to its sixteen slots and its value, absent exactly when absent or empty; an inline 32-byte string comes back as a hash |
| `TrieCodec.RlpStream.AppendRaw` | core/src/trie.rs:202-251 | appends one item to the list under construction |
| `TrieCodec.RlpStream.Append` | core/src/trie.rs:202-251 | appends one value as a data item |
| `TrieCodec.RlpStream.AppendEmptyData` | core/src/trie.rs:226-251 | appends the empty string |
| `TrieCodec.RlpStream.Drain` | core/src/trie.rs:202-251 | the finished list of all appended items |
| `TrieCodec.EncodeLeaf` | core/src/trie.rs:202-207 | the encoding of a leaf |
| `TrieCodec.EncodeExtension` | core/src/trie.rs:209-224 | the encoding of an extension with a hashed or inline child |
| `TrieCodec.EncodeBranch` | core/src/trie.rs:226-251 | the encoding of sixteen slots and a value |
| `TrieCodec.DecodedShape` | core/src/trie.rs:130-192 | what any bytes at all can decode to, with every range inside the bytes |
| `TrieCodec.DecodesIff` | core/src/trie.rs:130-192 | bytes decode exactly if they are a list of two or seventeen items, or a string that is empty or cannot be read |
| `TrieCodec.DecodePlan` | core/src/trie.rs:130-192 | decodes any bytes to a plan or an error, filling branch slots one by one |
| `ChainStore.KeyLayoutInjective` | chain/src/store.rs:212-238 | no two database keys share their bytes |
| `ChainStore.CommonOfParents` | chain/src/store.rs:160-177 | different headers of one height share exactly the ancestors their parents share |
| `ChainStore.ChainDB.WriteHeaderHash` | chain/src/store.rs:119-122 | enters a hash under its number |
| `ChainStore.ChainDB.WriteHeader` | chain/src/store.rs:44-49 | number to hash, hash to header |
| `ChainStore.ChainDB.WriteBlock` | chain/src/store.rs:195-200 | header entries and the block |
| `ChainStore.ChainDB.WriteHeadHash` | chain/src/store.rs:103-106 | moves the head |
| `ChainStore.ChainDB.FindAncestor` | chain/src/store.rs:160-177 | terminates; answers exactly when the heights agree and an ancestor is shared, and then with the highest one |
| `Blockchain.HoldsAppend` | chain/src/store.rs:195-200 | writing the next block makes the database hold the longer chain |
| `Blockchain.ImportKeepsLookups` | chain/src/blockchain.rs:141-168 | importing changes no lookup of an older block, by number or by hash |
| `Blockchain.OneParent` | chain/src/blockchain.rs:188-194 | a header has at most one parent in the chain |
| `Blockchain.ImportedIffFollows` | chain/src/blockchain.rs:141-205 | a block is imported exactly when it correctly succeeds the last one |
| `Blockchain.BlockChain.constructor` | chain/src/blockchain.rs:71-80 | the genesis chain, with its state readable |
| `Blockchain.BlockChain.ApplyTransactions` | chain/src/blockchain.rs:131-135 | the root execution yields, or a panic exactly when execution fails; earlier states stay readable |
| `Blockchain.BlockChain.ValidateHeader` | chain/src/blockchain.rs:188-205 | passes exactly headers whose parent is in the chain, one lower and earlier, and names the first thing wrong otherwise |
| `Blockchain.BlockChain.ValidateBlock` | chain/src/blockchain.rs:176-186 | fails exactly on a wrong signature or transaction root |
| `Blockchain.BlockChain.CheckBlock` | chain/src/blockchain.rs:141-160 | rejects with the verdict read off the chain, or the block is well placed after the last one |
| `Blockchain.BlockChain.ImportBlock` | chain/src/blockchain.rs:141-168 | the verdict read off the chain alone; an imported block extends it; any other leaves the database as it was; index dense, links, heights, times and state roots stay right |
| `Blockchain.ChainLinksDescend` | chain/src/store.rs:160-177 | imported chains meet what find_ancestor needs |
| `Blockchain.SetupAllocation` | core/src/genesis.rs:67-95 | the genesis state root |
| `Blockchain.ChainIsOneExecution` | chain/src/blockchain.rs:131-168 | the last state is the genesis state with the whole history executed |
| `Blockchain.ChainConservesSupply` | chain/src/blockchain.rs:131-168 | from genesis on the supply is the allocation after every transaction exactly when each conserves funds; stakes stay backed exactly while the supply is the allocation |
| `Blockchain.ChainShape` | chain/src/blockchain.rs:71-168 | in every imported chain heights count up, times rise, blocks name their parent and the roots of what they hold, and all transactions are signed |
| `Blockchain.NoTransactionTwice` | chain/src/blockchain.rs:131-168 | two transactions of one sender never share a nonce in a chain |
| `Blockchain.JudgedNext` | chain/src/blockchain.rs:141-168 | one more verdict on top of the blocks imported so far |
| `Blockchain.ImportAll` | chain/src/blockchain.rs:141-168 | blocks offered in turn: the chain grows by exactly those judged imported, in order, and stops only at a panic |
| `Blockchain.Run` | chain/src/blockchain.rs:71-168 | genesis and any blocks: the chain is genesis and the imported ones in order, each judged on top of those before it; it stays dense, linked, executed and readable, holds only signed transactions, and holds exactly the allocation while its transactions conserve funds |
| `Vrf.FirstCommitment` | common/crypto/src/vrf.rs:343-353 | the first commitment is r + c (key + offset) |
| `Vrf.OutputIsInverse` | common/crypto/src/vrf.rs:390-392 | the output is the point of the inverse of key plus offset, or the base point when that is zero |
| `Vrf.AcceptedIff` | common/crypto/src/vrf.rs:343-361 | a proof is accepted exactly when value and proof can be read and the challenge over key, value and both recomputed commitments is the one in the proof |
| `Vrf.SecondOpens` | common/crypto/src/vrf.rs:394-405 | with the inverse as value the second commitment is the nonce times it |
| `Vrf.SafeInvertScalar` | common/crypto/src/vrf.rs:303-309 | the inverse of a non-zero scalar, one for zero |
| `Vrf.ProofOpens` | common/crypto/src/vrf.rs:394-405 | what a verifier recomputes from a produced proof |
| `Vrf.UnitInverse` | common/crypto/src/vrf.rs:303-309 | for the zero exponent the prover's second commitment is the nonce too |
| `Vrf.ProducedProofIsAccepted` | common/crypto/src/vrf.rs:390-405 | the value is the computed one; accepted for every non-zero exponent, and for zero exactly when the challenge also fits the shifted commitment |
| `Vrf.ZeroExponentNeedsZeroChallenge` | common/crypto/src/vrf.rs:303-309 | with a challenge that tells second commitments apart the zero exponent is accepted exactly when its challenge is zero |
| `Vrf.TwoAnswers` | common/crypto/src/vrf.rs:343-361 | two answers to different challenges on the same commitments make the value the inverse of the exponent |
| `Vrf.AcceptedValueIsComputed` | common/crypto/src/vrf.rs:343-361 | such an accepted value is the one the key computes |

## Left out

- Networking plumbing (libp2p, tokio, timers, gossip, RPC server, transport), CLI, logging, metrics and tools: input and output only.
- Internals of rocksdb, trie_db, memory_db, bincode, Blake2, Ed25519 and curve25519: modelled as maps, injective functions and an abstract group.
- `TxPoolManager` in `pool/src/tx_pool.rs`: its heap is not maintained by its removals, so there is no invariant to state.
- `Staking::activate_deposit`, `Balance::slash` and `Balance::unlock_balance`; validator `delete` in the accounting runs: the loop of the first never advances, the others are easy variants.
- `Interpreter::call` dispatch: no arm can match the name it computes, so modules are called directly.
- Outbound substreams, dial errors and keep-alive of the P2P handler.
- A sync target that changes during a run: ids and tiling are stated for a fixed target.
- `UnorderedIterator`, `light_status`, `find`, `worst_transaction`, `is_full`: only easy members.
- Slot clock, epoch code and the floating-point random threshold of the generator.
- `setup_height`, `delete_header` and `delete_block` of the chain database: not used by import.
- `branch_node_nibbled` of the trie codec: never reached with this layout.
- SenderQueue.Transactions.FindNext: the binary search is its specification, not a loop.
- StateStore.StateDB.GetStorage: a trie of which some node is missing reads as empty; the source panics if the root is there and another node is not.
- Executor.BlockConservesFunds: requires the total supply to fit in 128 bits, as it does from genesis on.
- InboundHandler.Handler.PollInbound: the outbound half of `poll` and the events it returns are not modelled.
- Vrf.AcceptedValueIsComputed: the two accepting proofs answer different challenge hashes, since one hash gives one challenge per pair of commitments.
- ChainStore.ChainDB.FindAncestor: requires stored parents to be one lower; `Blockchain.ChainLinksDescend` shows that imported chains meet this.
