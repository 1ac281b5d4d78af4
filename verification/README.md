# Verified core of mx-sdk-go

A Dafny model of the parts of the MultiversX Go SDK that hold state machines, schedulers and codecs, with proofs of
what they guarantee on every input and over every run.

- **V3 nonce handler and transaction worker.** `TransactionQueue.dfy` is the heap, `WorkerProtocol.dfy` the protocol
  between callers, the worker goroutine and cancellation, with one event for every mutex-protected section and for the
  proxy call and the delivery outside the lock; `WorkerProperties.dfy` and
  `WorkerRefusals.dfy` hold what every interleaving guarantees, the latter which error each caller is told;
  `TransactionWorker.dfy` is the worker in place, each section proved to be one event of the protocol.
  `NonceHandlerV3.dfy` and `NonceBatchV3.dfy` are the address handler and the mixed-sender batches, and `JointV3.dfy`
  runs the address handler and its worker together.
- **V2 and V1 nonce handlers.** `NonceCounter.dfy` is their counter, `NonceHandlerV2.dfy` the V2 handler,
  `NonceRunsV2.dfy` its runs of whole calls, `NonceSectionsV2.dfy` its runs of single sections, with calls that overlap
  and account nonces that are stale, `NonceCacheV2.dfy` what these leave cached, and `NonceHandlerV1.dfy` the V1 handler
  and its runs.
- **Native auth.** `Text.dfy` and `Base64.dfy` are the string helpers and encodings, `TokenCodec.dfy` the token printer
  and parser, `NativeAuth.dfy` the client and the server.
- **serde.** `SourceBuffer.dfy` is the cursor, `Serde.dfy` the wire format with its reference encoder,
  `Deserializer.dfy` the decoder's loops.
- **Log queries.** `EventFilter.dfy` is the filter on the events of a block, `FilterLogs.dfy` the scan with and without
  the block cache, `FilterLogsRuns.dfy` says exactly when the cache cannot be noticed, and `FilterLogsAnswers.dfy` what
  a query answers.
- **Wallet tracker.** `WalletTracker.dfy`.
- **Loops over nonces.** `UpwardLoops.dfy`: a loop over uint64 values whose counter wraps.
- **Contract calls and prices.** `TxDataBuilder.dfy`, `OracleBatch.dfy`, `PriceAggregator.dfy`.

`GoTypes.dfy` has Go's integer types with wrap-around written out. Go strings are byte strings. Answers of the proxy,
of the block source and of the clock are parameters of the operations, failures included; Go's map iteration order is a
nondeterministic choice, and so is what a cache evicts.

Some promised properties hold on a condition only. Each is stated with that condition, in both directions where it is
an equivalence, and where the condition does not show the failing inputs by itself a lemma names one:

- a token decodes to itself if and only if its block hash contains no dot (`TokenCodec.RoundTrip`);
- the expiry check is the promised one if and only if timestamp + ttl, counted from the year 1 as Go's time type does,
  fits into an int64 (`NativeAuth.ExpiryIsExact`, `LongestTtlIsExpired`);
- a batch of price changes reads back unchanged if and only if no timestamp is negative and no number exceeds 2^63
  (`OracleBatch.BatchRoundTrip`);
- re-encoding a decoded struct gives the consumed bytes if and only if no big integer has a leading zero
  (`Serde.FieldsReencode`);
- decoding a token panics if and only if the token, or the body inside it, is cut short after parts that are all valid
  (`TokenCodec.PanicsIff`); every encoded text alone is such a token (`ShortTokensPanic`);
- built call data parses back to the call if and only if the function name contains no '@', and is not missing where
  there are arguments (`TxDataBuilder.CallRoundTrip`);
- V2's and V1's nonces are consecutive if and only if they end below 2^64 and the chain never overtakes the counter
  (`NonceCounter.NoncesAreConsecutive`); when exactly two calls get the same nonce, and when a later one gets a lower
  one, is said by `RepeatsExactly` and `NoncesFollowTheChain`, with `OvertakenCounterRepeats` and
  `WrappedCounterFallsBack` as inputs;
- V3's nonces of one epoch are consecutive if and only if the block ends below 2^64
  (`NonceHandlerV3.EpochIsContiguous`, `TopNonceRepeats`);
- without a cancellation no caller of V3 is told of an error if and only if the proxy accepted all it was given
  (`JointV3.ErrorsComeFromTheProxy`); after one fault a second caller can be turned away (`FaultTurnsAwayAnother`);
- while nothing is added, the V3 worker sends nonces in increasing order if and only if the transaction in flight at the
  start, if any, precedes the queue (`WorkerProperties.DrainSendsIncreasingNonces`, `LateAdditionIsOvertaken`);
- a sweep of V1 or V2 leaves exactly the transactions the chain has not executed if and only if none is cached under the
  account nonce itself, nor above it where the sweep takes its shortcut (`NonceHandlerV1.SweepKeepsUnexecuted`,
  `NonceHandlerV2.SweepKeepsUnexecutedIff`). The account nonce is the next one to be executed, so every sweep forgets
  the very transaction the chain waits for (`SweepForgetsNextTransaction`, for both versions);
- a V2 sweep keeps and resends exactly what is above its account nonce if and only if it does not take the shortcut past
  something cached (`NonceSectionsV2.SweepIsFullIff`). That holds in every run whose account nonces keep pace with the
  counter (`EverySweepIsFull`), and for every sweep whose account nonce is not behind those that nonces were taken with
  (`FreshSweepIsFull`); a sweep with a stale account nonce can forget more (`StaleSweepForgets`). In V1 a rejected
  duplicate can bring this about, too (`NonceHandlerV1.SteadyRunsKeepAbove`, `DuplicateMakesSweepForget`);
- after a drop of V2 a call pays more than the price before it if and only if it offered more itself, or no call stored
  a fetched price before this one read it and the raise did not wrap, or the last price stored is higher
  (`NonceSectionsV2.PaysMoreIff`); the first price is stored by a call with the first nonce past the bound or by one
  that was fetching a price at the drop (`RefetchedOnlyPastBound`, `FetchAcrossDropStoresFirst`); two overlapping calls
  can lose the raised price (`OverlappingCallsCanUnderbid`), calls made one after the other cannot
  (`NonceRunsV2.DroppedAreOutbid`), but where a sweep has closed the handler no call gets a nonce after the drop either,
  until the chain moves (`NonceRunsV2.ClosedUntilTheChainMoves`);
- cached and uncached log queries agree in every run over a set of shards if and only if the shards' responses agree,
  nonce by nonce and hash by hash (`FilterLogsRuns.CacheIsInvisibleIff`); on one shard only the responses to hashes
  matter (`OneShardCacheIsInvisibleIff`). Two runs with a wrong answer: `ShardsShareKeys`, `ErrorResponseIsCached`;
- a scan of accepted blocks makes end - start + 1 turns if and only if its end is not 2^64 - 1, where it never returns
  (`UpwardLoops.TurnsOfLoop`, `FilterLogs.ScanReturnsIff`), and so for the wallet tracker (`WalletTracker.TickEndsIff`).

Where the documentation and the code disagree the model follows the code:

- core/types.go:19-20 lets a query leave out both ends of the range, core/types.go:24-29 makes an empty topic match
  anything and the order of topics irrelevant; blockchain/proxy.go:878 rejects a query without a range, and
  blockchain/proxy.go:990-1002 compares the topics, byte for byte and in order, with a prefix of the event's.
- interactors/nonceHandlerV2/addressNonceHandler.go:20-21 and interactors/nonceHandlerV1/addressNonceHandler.go:20-21
  say that the sweep removes transactions because they were executed; it also removes the one at the account nonce,
  which was not (lines 141 and 76, and the shortcuts at lines 130 and 67).
- interactors/nonceHandlerV3/addressNonceHandler.go:18-24 describes a nonce that is the maximum of two and a resending
  sweep; the V3 code has neither.

## Model

| member | source | states |
|---|---|---|
| `TransactionQueues.RootIsLeast` | interactors/nonceHandlerV3/workers/transactionWorker.go:65-69 | the root of a heap ordered by nonce carries the least nonce of all |
| `TransactionQueues.TransactionQueue.Swap` | interactors/nonceHandlerV3/workers/transactionWorker.go:58-63 | exchanges two slots, keeps every item's index equal to its slot and the items the same |
| `TransactionQueues.TransactionQueue.PushLast` | interactors/nonceHandlerV3/workers/transactionWorker.go:34-40 | appends with the right index |
| `TransactionQueues.TransactionQueue.PopLast` | interactors/nonceHandlerV3/workers/transactionWorker.go:42-51 | cuts off the last item and marks its index -1 |
| `TransactionQueues.TransactionQueue.Push` | interactors/nonceHandlerV3/workers/transactionWorker.go:116 | heap push keeps order and indices and adds exactly the item |
| `TransactionQueues.TransactionQueue.Pop` | interactors/nonceHandlerV3/workers/transactionWorker.go:163 | heap pop keeps order and indices, takes exactly one item, and that has the least nonce |
| `TransactionQueues.TransactionQueue.PushTx` | interactors/nonceHandlerV3/workers/transactionWorker.go:116 | the queue refines a bag of transactions that grows by one |
| `TransactionQueues.TransactionQueue.PopTx` | interactors/nonceHandlerV3/workers/transactionWorker.go:156-165 | the queue refines a bag with remove-min |
| `WorkerProtocol.EventKeepsInv` | interactors/nonceHandlerV3/workers/transactionWorker.go:98-186 | every event, of a caller, of the worker or of cancellation, keeps the invariant that ties queue, promises, channels and history together |
| `WorkerProtocol.RunKeepsInv` | interactors/nonceHandlerV3/workers/transactionWorker.go:98-186 | so does every run |
| `WorkerProperties.ResponsesPerChannel` | interactors/nonceHandlerV3/workers/transactionWorker.go:98-186 | in every interleaving each returned channel gets at most one response, and exactly one once the worker has closed |
| `WorkerProperties.PromisedNonces` | interactors/nonceHandlerV3/workers/transactionWorker.go:108-117 | in every reachable state the keys of the promise map are exactly the queued nonces plus the popped one |
| `WorkerProperties.PendingNoncesDistinct` | interactors/nonceHandlerV3/workers/transactionWorker.go:108-117 | no two pending transactions have the same nonce |
| `WorkerProperties.RetrieveFindsOwnChannel` | interactors/nonceHandlerV3/workers/transactionWorker.go:176-186 | retrieving never yields nil nor another transaction's channel |
| `WorkerProperties.SendsNeverBlock` | interactors/nonceHandlerV3/workers/transactionWorker.go:149-172 | no send on a capacity-1 channel can block |
| `WorkerProperties.AnswersReachTheirCaller` | interactors/nonceHandlerV3/workers/transactionWorker.go:146-152 | a proxy answer arrives on the channel of the transaction it answers |
| `WorkerProperties.NoAnswerIsLost` | interactors/nonceHandlerV3/workers/transactionWorker.go:140-186 | in every interleaving, cancellation included, each proxy answer is on the channel of the transaction it answers or about to be put there |
| `WorkerProperties.AcceptedAreConserved` | interactors/nonceHandlerV3/workers/transactionWorker.go:98-186 | accepted transactions are queued, in flight or sent, none twice and none lost |
| `WorkerProperties.DistinctNoncesAreAccepted` | interactors/nonceHandlerV3/workers/transactionWorker.go:96-118 | without cancellation, transactions with distinct nonces are all accepted, none is turned away |
| `WorkerProperties.DrainSendsIncreasingNonces` | interactors/nonceHandlerV3/workers/transactionWorker.go:120-165 | from every reachable state all runs without additions send in strictly increasing nonce order if and only if the transaction in flight, if any, precedes the queue |
| `WorkerProperties.LateAdditionIsOvertaken` | interactors/nonceHandlerV3/workers/transactionWorker.go:96-165 | a run after which 6 is sent before 5 |
| `WorkerProperties.WorkerFinishes` | interactors/nonceHandlerV3/workers/transactionWorker.go:140-165 | left alone the worker stops within a bounded number of steps, with every channel answered |
| `WorkerRefusals.WhatCallersAreTold` | interactors/nonceHandlerV3/workers/transactionWorker.go:98-118 | the channel of a call says "closed" if and only if the worker had been cancelled, "already scheduled" with its own nonce if and only if an open promise for that nonce existed, and else only the proxy's answer or that the context is done |
| `WorkerRefusals.WhatCancelTells` | interactors/nonceHandlerV3/workers/transactionWorker.go:167-174 | "context done" stands exactly on the channels promised at the cancellation, "closed" exactly on those returned after it |
| `WorkerRefusals.NobodyToldWithoutCancel` | interactors/nonceHandlerV3/workers/transactionWorker.go:98-174 | without a cancellation nobody is told of one |
| `WorkerRefusals.RefusalsTellTheTruth` | interactors/nonceHandlerV3/workers/transactionWorker.go:98-186 | over every run each response is true of its channel: the proxy's answer to its own transaction, a nonce promised and waiting, or a cancellation that happened |
| `TransactionWorkers.TransactionWorker.AddTransaction` | interactors/nonceHandlerV3/workers/transactionWorker.go:96-118 | is one add event of the protocol: rejected when closed or scheduled already, else queued and promised |
| `TransactionWorkers.TransactionWorker.NextTransaction` | interactors/nonceHandlerV3/workers/transactionWorker.go:154-165 | is one pop event, or finds the queue empty |
| `TransactionWorkers.TransactionWorker.RetrieveChannel` | interactors/nonceHandlerV3/workers/transactionWorker.go:176-186 | is one retrieve event |
| `TransactionWorkers.TransactionWorker.ProcessNextTransaction` | interactors/nonceHandlerV3/workers/transactionWorker.go:140-152 | an undisturbed tick is the four events pop, retrieve, send, deliver and never blocks |
| `TransactionWorkers.TransactionWorker.AnswerPromised` | interactors/nonceHandlerV3/workers/transactionWorker.go:170-172 | in any map order every promised channel gets the response once and no other channel changes |
| `TransactionWorkers.TransactionWorker.CloseAllChannels` | interactors/nonceHandlerV3/workers/transactionWorker.go:167-174 | is one cancel event, of which WorkerRefusals.WhatCancelTells says what it tells whom |
| `NonceHandlerV3.EpochIsContiguous` | interactors/nonceHandlerV3/addressNonceHandler.go:88-144 | between two invalidations, in any interleaving of callers, the nonces count up from the fetched one, if and only if they stay below 2^64 |
| `NonceHandlerV3.TopNonceRepeats` | interactors/nonceHandlerV3/addressNonceHandler.go:128-144 | at the top of the range the cached nonce looks invalid and a nonce repeats |
| `NonceBatchV3.AddressNonceHandler.Compute` | interactors/nonceHandlerV3/addressNonceHandler.go:128-144 | fetches when invalid, else increments with wrap-around |
| `NonceBatchV3.AddressNonceHandler.AdaptNonceBasedOnResponse` | interactors/nonceHandlerV3/addressNonceHandler.go:88-96 | is the response event of the epoch theorem, whoever reads it; after a failure the next nonce handed out is the account's |
| `NonceBatchV3.AddressNonceHandler.ApplyGasPriceIfRequired` | interactors/nonceHandlerV3/addressNonceHandler.go:108-126 | raises the price to the cached or fetched minimum and caches it |
| `NonceBatchV3.AddressNonceHandler.ApplyNonceAndGasPrice` | interactors/nonceHandlerV3/addressNonceHandler.go:58-71 | distinct transactions get consecutive nonces in order and a price no lower than their own and the one found for them; short of 2^64 the call fails exactly where the first account or a price cannot be fetched |
| `NonceBatchV3.PriceIsFirstFound` | interactors/nonceHandlerV3/addressNonceHandler.go:108-126 | the price found for a transaction is the cached one, or else the network's first answer that is not zero, where no answer before failed |
| `NonceBatchV3.RankIsPosition` | interactors/nonceHandlerV3/nonceTransactionsHandler.go:129-140 | a transaction stands in its sender's group at the number of earlier ones of that sender |
| `NonceBatchV3.FilterBySender` | interactors/nonceHandlerV3/nonceTransactionsHandler.go:129-140 | groups every sender's transactions in input order, and nothing else |
| `NonceBatchV3.NonceTransactionsHandler.GetOrCreate` | interactors/nonceHandlerV3/nonceTransactionsHandler.go:90-127 | one handler per address, created on demand |
| `NonceBatchV3.NonceTransactionsHandler.ApplyGroup` | interactors/nonceHandlerV3/nonceTransactionsHandler.go:76-84 | one group changes only the handler of its address |
| `NonceBatchV3.NonceTransactionsHandler.ApplyNonceAndGasPrice` | interactors/nonceHandlerV3/nonceTransactionsHandler.go:63-88 | for every order of the groups and all answers to the fetches, each sender's transactions get consecutive nonces in input order from its handler's next nonce, each transaction is priced once, from what was cached before, and the batch succeeds where every sender can be served |
| `JointV3.RunKeepsJointInv` | interactors/nonceHandlerV3/addressNonceHandler.go:73-144 | handler and worker run together: as long as the proxy accepts, no nonce is invalidated and every scheduled transaction is accepted under a nonce of its own |
| `JointV3.ErrorsComeFromTheProxy` | interactors/nonceHandlerV3/addressNonceHandler.go:73-144 | without a cancellation, no caller is told of an error if and only if the proxy accepted everything; until then the nonces are one contiguous block and nothing is turned away |
| `JointV3.FaultTurnsAwayAnother` | interactors/nonceHandlerV3/addressNonceHandler.go:73-96 | after one fault a nonce still queued is handed out again and its second transaction is refused |
| `NonceCounter.KthNonce` | interactors/nonceHandlerV2/addressNonceHandler.go:97-120 | the k-th nonce after the first fetch a0 is max(a0 + k, account nonce), a0 + k modulo 2^64 |
| `NonceCounter.NoncesFollowTheChain` | interactors/nonceHandlerV1/addressNonceHandler.go:39-58 | never below the account nonce; on a monotone chain a later nonce is lower if and only if it is below the earlier count, so never before the counter wraps |
| `NonceCounter.NoncesAreConsecutive` | interactors/nonceHandlerV2/addressNonceHandler.go:97-120 | consecutive if and only if they end below 2^64 and the account nonce never overtakes the counter |
| `NonceCounter.RepeatsExactly` | interactors/nonceHandlerV2/addressNonceHandler.go:97-120 | on a monotone chain two calls share a nonce if and only if both fetched it, at or above both counts, or the later one got the earlier count; the latter only past a wrap |
| `NonceCounter.OvertakenCounterRepeats` | interactors/nonceHandlerV2/addressNonceHandler.go:117-119 | an overtaken counter hands out the same nonce twice |
| `NonceCounter.WrappedCounterFallsBack` | interactors/nonceHandlerV2/addressNonceHandler.go:117-119 | a counter that wraps hands out a lower nonce, and one a second time |
| `NonceHandlerV2.ShortcutAgrees` | interactors/nonceHandlerV2/addressNonceHandler.go:130-148 | the shortcut is the full sweep if and only if nothing is cached above the counter |
| `NonceHandlerV2.KeepsUnexecutedIff` | interactors/nonceHandlerV2/addressNonceHandler.go:130-147 | what a sweep leaves is what the chain has not executed if and only if nothing is cached under the account nonce, nor above it on the shortcut; a full sweep forgets exactly the transaction at the account nonce |
| `NonceHandlerV2.SweepKeepsUnexecutedIff` | interactors/nonceHandlerV2/addressNonceHandler.go:122-148 | the same for the V2 sweep, which never keeps the transaction at the account nonce |
| `NonceHandlerV2.ReplacementPaysMore` | interactors/nonceHandlerV2/addressNonceHandler.go:49-80 | a transaction that may reuse a cached nonce pays strictly more, except at the nonce where the price is fetched again; a refused one did not pay more |
| `NonceHandlerV2.AddressNonceHandler.GetNonceUpdatingCurrent` | interactors/nonceHandlerV2/addressNonceHandler.go:97-120 | proxy failure, gap, first fetch or increment with maximum |
| `NonceHandlerV2.AddressNonceHandler.FetchGasPriceIfRequired` | interactors/nonceHandlerV2/addressNonceHandler.go:82-95 | re-fetches at the first nonce past the bound or without a price; a failure leaves no price |
| `NonceHandlerV2.AddressNonceHandler.ApplyNonceAndGasPrice` | interactors/nonceHandlerV2/addressNonceHandler.go:49-80 | refuses exactly a duplicate that offers less, or no more while the handler's price is no higher; else numbers and prices; what is written on failure |
| `NonceHandlerV2.AddressNonceHandler.KeepAbove` | interactors/nonceHandlerV2/addressNonceHandler.go:138-148 | in any map order, deleting while walking, keeps and lists exactly the cached transactions above the account nonce, each once, and finds the lowest nonce |
| `NonceHandlerV2.AddressNonceHandler.ReSendTransactionsIfRequired` | interactors/nonceHandlerV2/addressNonceHandler.go:122-168 | the sweep: shortcut or full, and what is resent |
| `NonceHandlerV2.AddressNonceHandler.SendTransaction` | interactors/nonceHandlerV2/addressNonceHandler.go:170-177 | caches under the nonce and leaves every other one as it is |
| `NonceHandlerV2.AddressNonceHandler.DropTransactions` | interactors/nonceHandlerV2/addressNonceHandler.go:179-187 | empties the cache, raises the price by one, remembers the counter, and the nonces from then on are those of a new counter |
| `NonceRunsV2.SweepClosesUntilCaughtUp` | interactors/nonceHandlerV2/addressNonceHandler.go:103-148 | after a sweep calls fail with a gap exactly until the account nonce reaches the counter or a kept nonce |
| `NonceRunsV2.ClosedUntilTheChainMoves` | interactors/nonceHandlerV2/addressNonceHandler.go:97-187 | after a sweep that found the account nonce behind the counter, no call of any run gets a nonce while the account nonce stays, drops included |
| `NonceRunsV2.RunKeepsOutbidding` | interactors/nonceHandlerV2/addressNonceHandler.go:82-95 | the raised price stays until the first nonce past the bound is handed out, and that needs the counter or the chain past the bound |
| `NonceRunsV2.DroppedAreOutbid` | interactors/nonceHandlerV2/addressNonceHandler.go:50-187 | calls one after the other between two drops: every call that succeeds, up to the bound or while the first nonce past it is not handed out, pays exactly one more than before the drop, or its own higher price |
| `NonceRunsV2.SkippedBoundKeepsPrice` | interactors/nonceHandlerV2/addressNonceHandler.go:82-95 | a chain that skips the first nonce past the bound leaves the raised price in place |
| `NonceSectionsV2.SectionsAreTheCall` | interactors/nonceHandlerV2/addressNonceHandler.go:49-120 | the sections of a call with nobody in between are the whole call |
| `NonceSectionsV2.RunKeepsPaced` | interactors/nonceHandlerV2/addressNonceHandler.go:97-187 | while account nonces keep pace with the counter, no cached nonce exceeds it, in any interleaving |
| `NonceSectionsV2.RunKeepsBounded` | interactors/nonceHandlerV2/addressNonceHandler.go:97-187 | in every interleaving cached nonces stay at or below the larger of the counter and the account nonces that nonces were taken with |
| `NonceCacheV2.CacheIsLastSent` | interactors/nonceHandlerV2/addressNonceHandler.go:122-187 | after any run a nonce is cached if and only if something was sent under it and neither dropped nor taken out by a sweep since, and then it is the last one sent |
| `NonceCacheV2.SweepResendsLastSent` | interactors/nonceHandlerV2/addressNonceHandler.go:138-155 | so a sweep off the shortcut resends exactly those above its account nonce |
| `NonceSectionsV2.SweepIsFullIff` | interactors/nonceHandlerV2/addressNonceHandler.go:122-168 | a sweep is full if and only if it does not take the shortcut past something cached |
| `NonceSectionsV2.EverySweepIsFull` | interactors/nonceHandlerV2/addressNonceHandler.go:97-168 | in every run whose account nonces keep pace, every sweep is full, with whatever stale account nonce, and leaves all that is not executed if and only if nothing is cached under that nonce |
| `NonceSectionsV2.FreshSweepIsFull` | interactors/nonceHandlerV2/addressNonceHandler.go:97-168 | in every run a sweep is full if its account nonce is not behind those that nonces were taken with |
| `NonceSectionsV2.SweepForgetsNextTransaction` | interactors/nonceHandlerV2/addressNonceHandler.go:123-147 | a run in which a full sweep forgets the transaction the chain waits for |
| `NonceSectionsV2.StaleSweepForgets` | interactors/nonceHandlerV2/addressNonceHandler.go:123-136 | a run in which a sweep with a stale account nonce forgets a transaction above it |
| `NonceSectionsV2.RunExplainsPrice` | interactors/nonceHandlerV2/addressNonceHandler.go:82-95 | between two drops the price is the raised one until a call stores another, then the last one stored |
| `NonceSectionsV2.PaysMoreIff` | interactors/nonceHandlerV2/addressNonceHandler.go:49-95 | however calls overlap, one pays more than before the drop if and only if it offered more, or nobody stored a price before it read and the raise did not wrap, or the last one stored is higher |
| `NonceSectionsV2.RefetchedOnlyPastBound` | interactors/nonceHandlerV2/addressNonceHandler.go:82-95 | after a drop the first price stored is that of a call with the first nonce past the bound or of one that was fetching at the drop |
| `NonceSectionsV2.FetchAcrossDropStoresFirst` | interactors/nonceHandlerV2/addressNonceHandler.go:82-95 | a run in which it is the latter, for a nonce within the bound |
| `NonceSectionsV2.FirstCall` | interactors/nonceHandlerV2/addressNonceHandler.go:49-95 | one whole call from a new handler, from which the runs that show failures go on |
| `NonceSectionsV2.OverlappingCallsCanUnderbid` | interactors/nonceHandlerV2/addressNonceHandler.go:49-95 | two overlapping calls lose the raised price for a nonce within the bound |
| `NonceHandlerV1.AddressNonceHandlerV1.GetNonceUpdatingCurrent` | interactors/nonceHandlerV1/addressNonceHandler.go:39-58 | the same counter as V2, without the gap check |
| `NonceHandlerV1.AddressNonceHandlerV1.ReSendTransactionsIfRequired` | interactors/nonceHandlerV1/addressNonceHandler.go:60-102 | the sweep and what it resends, in any map order |
| `NonceHandlerV1.AddressNonceHandlerV1.DecrementComputedNonce` | interactors/nonceHandlerV1/addressNonceHandler.go:126-132 | takes one off the counter unless it is zero |
| `NonceHandlerV1.AddressNonceHandlerV1.MarkReFetchNonce` | interactors/nonceHandlerV1/addressNonceHandler.go:134-139 | from now on the nonces are those of a new handler, whatever the counter was; the cache stays |
| `NonceHandlerV1.AddressNonceHandlerV1.IsTxAlreadySent` | interactors/nonceHandlerV1/addressNonceHandler.go:112-124 | finds a cached transaction with the same payload if and only if there is one |
| `NonceHandlerV1.AddressNonceHandlerV1.SendTransaction` | interactors/nonceHandlerV1/nonceTransactionsHandler.go:89-112 | a duplicate is refused and takes the counter back by one, anything else is cached and then known as sent |
| `NonceHandlerV1.SweepKeepsAbove` | interactors/nonceHandlerV1/addressNonceHandler.go:66-83 | the sweep keeps all above the account nonce if and only if, on the shortcut, nothing is cached above the counter |
| `NonceHandlerV1.SweepKeepsUnexecuted` | interactors/nonceHandlerV1/addressNonceHandler.go:66-83 | the sweep leaves what the chain has not executed if and only if nothing is cached under the account nonce, nor above it on the shortcut |
| `NonceHandlerV1.SweepForgetsNextTransaction` | interactors/nonceHandlerV1/addressNonceHandler.go:66-83 | a steady run in which the sweep forgets the transaction the chain waits for |
| `NonceHandlerV1.SteadyRunsKeepAbove` | interactors/nonceHandlerV1/addressNonceHandler.go:39-139 | without rejected duplicates, with account nonces that keep pace and no re-fetch while something is cached, every sweep keeps exactly what is above its account nonce, and so all that is not executed if and only if nothing is cached under that nonce |
| `NonceHandlerV1.DuplicateMakesSweepForget` | interactors/nonceHandlerV1/nonceTransactionsHandler.go:101-105 | a run in which a rejected duplicate takes the counter back and the sweep then forgets a transaction above its account nonce |
| `Text.SplitJoin` | authentication/native/tokenHandler.go:33-46 | splitting undoes joining when no part contains the separator |
| `Text.HexRoundTrip` | authentication/native/tokenHandler.go:42-81 | hexadecimal decoding undoes encoding |
| `Text.HexDigits` | authentication/native/tokenHandler.go:81 | each byte is printed as its two digits, in lower case |
| `Text.HexReadsDigits` | authentication/native/tokenHandler.go:42 | decoding accepts pairs of digits in either case and nothing else |
| `Text.IntRoundTrip` | authentication/native/tokenHandler.go:52-88 | parsing undoes printing for every int64 |
| `Text.NoLeadingZeroPrinted` | authentication/native/tokenHandler.go:88 | no leading zero is printed |
| `Text.ParseIntReads` | authentication/native/tokenHandler.go:52 | an optional sign and digits whose value fits into an int64 are read, and nothing else |
| `Base64.EncodeHandlerIsUrlUnpadded` | authentication/native/tokenHandler.go:108-114 | standard encoding, replacing and trimming is the URL-safe unpadded base64 of RFC 4648 |
| `Base64.HandlerRoundTrip` | authentication/native/tokenHandler.go:101-114 | decoding undoes encoding for all bytes |
| `Base64.EncodingAlphabet` | authentication/native/tokenHandler.go:108-114 | encodings have letters, digits, '-' and '_' only, and are empty for no bytes only |
| `Base64.UrlAlphabet` | authentication/native/tokenHandler.go:108-114 | the alphabet of Table 2 of RFC 4648 |
| `Base64.SameBits` | authentication/native/tokenHandler.go:108-114 | three bytes and their four groups are the same 24 bits |
| `Base64.ThreeBytesFirst` | authentication/native/tokenHandler.go:108-114 | an encoding is that of the first three bytes and that of the rest |
| `Base64.EncodedExamples` | authentication/native/tokenHandler.go:108-114 | three inputs and their encodings |
| `Base64.StandardIsDecoded` | authentication/native/tokenHandler.go:101-106 | the padded standard encoding is decoded as well |
| `Base64.RawDecodeAccepts` | authentication/native/tokenHandler.go:101-106 | line ends make no difference, a lone last character and characters outside the alphabet are refused |
| `TokenCodec.EncodeSucceeds` | authentication/native/tokenHandler.go:64-82 | encoding fails on an empty signature or address, in that order, and on nothing else |
| `TokenCodec.TextExample` | authentication/native/tokenHandler.go:85-89 | a token and the text that is signed |
| `TokenCodec.TokenExample` | authentication/native/tokenHandler.go:64-82 | and its encoding |
| `TokenCodec.DecodesIff` | authentication/native/tokenHandler.go:29-61 | a token decodes if and only if its first three parts and the first four of its body stand for the fields |
| `TokenCodec.InvalidHexIff` | authentication/native/tokenHandler.go:42-45 | exactly when an invalid signature is reported |
| `TokenCodec.InvalidTtlIff` | authentication/native/tokenHandler.go:52-55 | exactly when an invalid ttl is |
| `TokenCodec.DecodedHashHasNoDot` | authentication/native/tokenHandler.go:46-51 | a decoded block hash has no dot |
| `TokenCodec.RoundTrip` | authentication/native/tokenHandler.go:29-89 | an encodable token decodes to itself if and only if its block hash has no dot |
| `TokenCodec.EncodeIsInjective` | authentication/native/tokenHandler.go:64-89 | different tokens have different encodings, whatever their block hashes contain |
| `TokenCodec.UnsignedTokenIsInjective` | authentication/native/tokenHandler.go:85-89 | the signed text determines host, block hash, ttl and extra info |
| `TokenCodec.PanicsIff` | authentication/native/tokenHandler.go:29-61 | the index panic, if and only if the token has fewer than three parts, all valid, or three valid ones around a body with fewer than four, host and ttl valid |
| `TokenCodec.ShortTokensPanic` | authentication/native/tokenHandler.go:33-56 | every encoding alone panics, the empty token among them, and so does every token with only a host inside |
| `NativeAuth.AuthClient.CreateNewToken` | authentication/native/client.go:89-121 | the stored token is the encoding of what was signed and its time is over after ttl nanoseconds; what each failure leaves behind |
| `NativeAuth.AuthClient.GetAccessToken` | authentication/native/client.go:75-87 | the token is handed out again until its time is over; with a clock that does not go back every token handed out was signed for some block |
| `NativeAuth.AuthServer.GetBlockTimestamp` | authentication/native/server.go:120-141 | cached or fetched, the timestamp is the block's |
| `NativeAuth.AuthServer.Validate` | authentication/native/server.go:88-163 | accepts if and only if the block is found, the token has not expired, its address decodes and the signature verifies for address and text, or these and "{}"; which error otherwise; the cache makes no difference |
| `NativeAuth.AuthServer.ValidateAll` | authentication/native/server.go:88-141 | nor do the verdicts of a run of validations, whatever the cacher forgets in between |
| `NativeAuth.ClientTokenDecodes` | authentication/native/client.go:100-115 | the server rebuilds, byte for byte, the message the client signed |
| `NativeAuth.AcceptedTokenWasSigned` | authentication/native/server.go:143-163 | with signatures that nobody forges and addresses that do not share keys, an accepted token's address, host, hash, ttl and extra info are those of a signed one |
| `NativeAuth.ClientTokenIsAcceptedUntilExpiry` | authentication/native/server.go:88-163 | a client's token is accepted up to timestamp + ttl and rejected as expired ever after, where Go can represent that time |
| `NativeAuth.ExpiryIsExact` | authentication/native/server.go:110-116 | the expiry check is the promised one if and only if timestamp + ttl, counted from the year 1, fits into an int64 |
| `NativeAuth.LongestTtlIsExpired` | authentication/native/server.go:110-112 | with the longest ttl the sum fits and yet the token counts as expired |
| `SourceBuffers.SourceBuffer.NextBytes` | serde/sourceBuffer.go:56-69 | never reads past the end; stops there and reports it; an overflowing sum counts as past the end |
| `SourceBuffers.SourceBuffer.Skip` | serde/sourceBuffer.go:71-83 | the same for skipping |
| `SourceBuffers.SourceBuffer.NextByte` | serde/sourceBuffer.go:85-94 | one byte or the end |
| `SourceBuffers.SourceBuffer.NextBool` | serde/sourceBuffer.go:102-114 | a byte other than 0 and 1 is consumed and reported as the end |
| `SourceBuffers.SourceBuffer.NextUint` | serde/sourceBuffer.go:121-149 | big-endian values of two, four and eight bytes |
| `SourceBuffers.SourceBuffer.NextVarBytes` | serde/sourceBuffer.go:169-178 | a four-byte length and that many bytes |
| `Serde.ReadFields` | serde/deserializer.go:64-90 | on arbitrary bytes the position never leaves the buffer, at any nesting level, and never goes back |
| `Serde.FieldsRoundTrip` | serde/deserializer.go:44-90 | decoding the encoding of any well-typed value, followed by anything, returns the value and exactly the bytes used |
| `Serde.FieldsReencode` | serde/deserializer.go:44-162 | whatever is decoded is well typed, and encodes to the consumed bytes if and only if no big integer has a leading zero |
| `Serde.DecodeThenEncode` | serde/deserializer.go:44-162 | without big integers, encoding undoes every successful decode |
| `Serde.FieldsInOrder` | serde/deserializer.go:64-90 | the fields follow each other on the wire in their order |
| `Serde.FirstByteLeads` | serde/sourceBuffer.go:121-149 | the first byte of a number counts the most |
| `Serde.EncodedExamples` | serde/deserializer.go:119-162 | four values and their bytes |
| `Serde.FourBytesWrap` | serde/deserializer.go:25-26 | a length is written modulo 2^32 |
| `Deserializers.NextPrimitive` | serde/deserializer.go:119-162 | reads exactly what the wire format says and moves the cursor accordingly |
| `Deserializers.SetFields` | serde/deserializer.go:64-90 | the loop over the fields computes the wire format's decoding, with the position it reports on failure |
| `Deserializers.CreateStruct` | serde/deserializer.go:43-62 | the same on a fresh buffer; no other kind of object is accepted |
| `Deserializers.CreatePrimitiveDataType` | serde/deserializer.go:17-41 | a bare string or big integer is made of the given bytes, within their length modulo 2^32; a bare integer or bool is read from the first bytes as they stand |
| `Deserializers.BareStringIsWhole` | serde/deserializer.go:24-28 | a bare string is read back whole if and only if its length fits into 32 bits |
| `FilterLogs.AcceptedRangeIsSmall` | blockchain/proxy.go:845-879 | an accepted range has at most 501 blocks, and a wrapped one has none |
| `FilterLogs.RangeIsExact` | blockchain/proxy.go:845-879 | a range is taken over as given, from 0 or up to the latest block where an end is missing, if and only if it has at most 501 blocks and an end that exists; which refusal otherwise |
| `UpwardLoops.TurnsOfLoop` | blockchain/proxy.go:777-784 | a loop that starts makes end - start + 1 turns if and only if its end is not 2^64 - 1 |
| `UpwardLoops.LoopEndsIff` | blockchain/proxy.go:777-784 | it ends at all if and only if its end is not 2^64 - 1 |
| `FilterLogs.LoopIsScan` | blockchain/proxy.go:776-786 | below that end the loop returns the events of the blocks in order, or the first error |
| `FilterLogs.ScanReturnsIff` | blockchain/proxy.go:776-786 | a scan without failing blocks has returned after end - start + 1 turns if and only if its end is not 2^64 - 1, and else never returns |
| `FilterLogs.QueryReturnsIff` | blockchain/proxy.go:759-787 | a query by range or by hash has returned the scan after 501 turns, unless it goes up to 2^64 - 1, where it gives no answer |
| `EventFilter.TopicsMatch` | blockchain/proxy.go:990-1002 | the filter's topics are no more than the event's and each is the event's at the same index |
| `EventFilter.Contains` | blockchain/proxy.go:978-988 | membership, and everything where no address is given |
| `EventFilter.MatchesFilter` | blockchain/proxy.go:964-976 | no address is given or the event's is listed, and the topics match |
| `EventFilter.ExtractMatchingEvents` | blockchain/proxy.go:947-962 | every event wanted, at its miniblock, transaction and index, stands in the result, nothing else does, and the positions increase |
| `FilterLogs.Proxy.FilterLogs` | blockchain/proxy.go:759-787 | range or hash, scan, cache and eviction in place are the cached query of the rows below, answer and cache |
| `FilterLogs.Proxy.Queries` | blockchain/proxy.go:759-945 | so is every run of queries, on any shards |
| `FilterLogsRuns.LogsAgree` | blockchain/proxy.go:905-945 | with a coherent cache the logs of a block are its own and the cache stays coherent |
| `FilterLogsRuns.QueryAgrees` | blockchain/proxy.go:759-945 | where responses agree, a query with any coherent cache and any eviction gives the uncached answer |
| `FilterLogsRuns.CacheIsInvisibleIff` | blockchain/proxy.go:759-945 | every run over the shards is answered as without a cache if and only if their responses agree by nonce and by hash |
| `FilterLogsRuns.OneShardCacheIsInvisibleIff` | blockchain/proxy.go:759-945 | on one shard if and only if its responses to hashes agree with those to nonces |
| `FilterLogsAnswers.ScanPicks` | blockchain/proxy.go:776-786 | a scan that succeeds has read every block of its range and holds exactly their wanted events, in the order of blocks and positions |
| `FilterLogsAnswers.ScanFails` | blockchain/proxy.go:778-781 | a scan that fails reports the first block that cannot be read |
| `FilterLogsAnswers.FilterLogsAnswers` | blockchain/proxy.go:759-945 | over agreeing shards, with any coherent cache and any eviction, a query returns exactly the wanted events of the blocks of its range or the first failure |
| `FilterLogsRuns.NonceResponseShows` | blockchain/proxy.go:924-945 | a disagreeing response fetched by nonce makes the next query on the other shard wrong |
| `FilterLogsRuns.HashResponseShows` | blockchain/proxy.go:881-945 | a disagreeing response looked up by hash makes the next query of its nonce wrong |
| `FilterLogsRuns.ShardsShareKeys` | blockchain/proxy.go:924-945 | two queries: after one shard's block another shard's is answered with the first one's event |
| `FilterLogsRuns.ErrorResponseIsCached` | blockchain/proxy.go:881-903 | two queries: a by-hash response with an error is cached under nonce 0, and block 0 is then answered with that error |
| `WalletTracker.PoppedPlusHeld` | workflows/addressesAccumulator.go:18-34 | popped and held together are exactly what was pushed |
| `WalletTracker.AddressesAccumulator.Push` | workflows/addressesAccumulator.go:18-22 | adds the address |
| `WalletTracker.AddressesAccumulator.Pop` | workflows/addressesAccumulator.go:24-34 | returns what is held, each address once, in any order, and empties |
| `WalletTracker.Tracker.ProcessTransaction` | workflows/walletsTracker.go:136-156 | pushes the receiver exactly for a valid, trackable transfer of at least the minimum |
| `WalletTracker.Tracker.ProcessHyperBlock` | workflows/walletsTracker.go:125-134 | pushes exactly the deposits of the block in order, whatever is drained meanwhile |
| `WalletTracker.Tracker.FetchAndProcessHyperBlocks` | workflows/walletsTracker.go:93-123 | processes the blocks after the stored nonce once each, in order and without gaps, until the network nonce is passed or a block fails, and where it stands if it runs on |
| `WalletTracker.Tracker.GetLatestTrackedAddresses` | workflows/walletsTracker.go:179-182 | hands over everything held, without duplicates |
| `WalletTracker.Tracker.Run` | workflows/walletsTracker.go:73-156 | over any run of ticks and drains an address is popped or held if and only if one of the blocks processed has a valid transfer of at least the minimum to it, and it is trackable |
| `WalletTracker.TickEndsIff` | workflows/walletsTracker.go:93-110 | without failing blocks a tick ends by itself if and only if the network nonce is not 2^64 - 1, with the network nonce stored |
| `WalletTracker.ProcessedInOrderIff` | workflows/walletsTracker.go:100-107 | the blocks processed are the successors of the starting nonce if and only if the nonces did not wrap |
| `TxDataBuilder.Builder.ArgBytes` | builders/baseBuilder.go:87-97 | hexadecimal argument; an empty one latches an error; after an error nothing changes |
| `TxDataBuilder.Builder.ArgInt64` | builders/baseBuilder.go:77-85 | the magnitude in hexadecimal, zero as one zero byte |
| `TxDataBuilder.Builder.ArgBigInt` | builders/baseBuilder.go:64-75 | the same for big integers; nil latches an error |
| `TxDataBuilder.Builder.ArgHexString` | builders/baseBuilder.go:36-48 | a checked hexadecimal string is taken over as it is |
| `TxDataBuilder.Builder.ToDataBytes` | builders/txDataBuilder.go:77-101 | the latched error, or data that parses back to the builder's function and arguments if and only if the function has no '@' and is there if arguments are |
| `TxDataBuilder.CallRoundTrip` | builders/txDataBuilder.go:77-101 | the same for every name and all hexadecimal arguments, in both directions |
| `TxDataBuilder.DataExample` | builders/txDataBuilder.go:77-91 | a function with three arguments and its data |
| `TxDataBuilder.NamelessCall` | builders/txDataBuilder.go:83-90 | without a name the data splits into the arguments alone, the first of which is read as the name |
| `OracleBatch.PrepareTxData` | aggregator/notifees/mxNotifee.go:140-153 | one empty name anywhere fails the whole batch, else the parts are "submitBatch" and base, quote, timestamp, price and decimals of each change in turn |
| `OracleBatch.BatchReadsBack` | aggregator/notifees/mxNotifee.go:140-153 | the batch parses back to the same changes in order, numbers as magnitudes |
| `OracleBatch.BatchRoundTrip` | aggregator/notifees/mxNotifee.go:144-150 | and to exactly the given changes if and only if no timestamp is negative and no number exceeds 2^63 |
| `PriceAggregator.ComputeMedian` | aggregator/computers.go:7-22 | the middle one of the sorted prices or the mean of the middle two; they are left sorted |
| `PriceAggregator.MajorityBoundsMedian` | aggregator/computers.go:14-21 | if a strict majority of the prices lies in an interval, so does the median |
| `PriceAggregator.GatherPrices` | aggregator/priceAggregator.go:67-97 | in any order of completion the successful prices are gathered, each once |
| `PriceAggregator.FetchPrice` | aggregator/priceAggregator.go:58-104 | for every order of completion the median of exactly the successful prices, or an error where they are fewer than required or none |

## Left out

- HTTP, JSON, endpoints and the rest of the proxy: plumbing; responses are parameters.
- Cryptography and bech32: one abstract sign/verify pair, and an abstract decoding of addresses.
- Time: tickers, timeouts and sleeps are steps without duration; the clock itself is within the range of Go's time type.
- Go reflection in serde: a schema replaces it; pointer fields, unsettable fields and the object's contents after an error are not modelled, nor is `SourceBuffer.BackUp`.
- Transactions given to the worker and to the V2 and V1 handlers are values: a caller that changes a queued transaction through its pointer is not modelled.
- Channels of the worker are a table in the worker object: reading does not empty them, so a second send counts as blocking. A caller that stops waiting for its response is one that does not read.
- Nil pointers as arguments: a nil transaction in a batch, a nil batch, a nil hyper block.
- NonceRunsV2.DroppedAreOutbid: assumes that neither the price nor the counter is 2^64 - 1 at the drop, where the increment wraps to zero; so does NonceSectionsV2.RefetchedOnlyPastBound for the price. It speaks of calls that succeed.
- NonceSectionsV2.EverySweepIsFull: assumes that only nonces handed out since the last drop are sent and that the counter does not wrap; the runs contain no failing calls, which change nothing.
- NonceHandlerV1.SteadyRunsKeepAbove: its condition on runs is sufficient only; the exact condition is the one on states in NonceHandlerV1.SweepKeepsAbove.
- JointV3.ErrorsComeFromTheProxy: assumes that each nonce handed out is scheduled at most once and that the nonces end below 2^64.
- FilterLogs.Proxy.FilterLogs: the shard and the latest nonce are parameters; choosing the shard from the addresses (blockchain/proxy.go:789-831) is left out as easy.
- FilterLogsAnswers.FilterLogsAnswers: for shards whose responses agree and an end below 2^64 - 1; FilterLogsRuns.CacheIsInvisibleIff and FilterLogs.ScanReturnsIff say what is lost otherwise.
- NativeAuth.AcceptedTokenWasSigned: assumes that signatures are not forged and that no two addresses share a key.
- WalletTracker.Tracker.FetchAndProcessHyperBlocks: the notification of a new deposit is not modelled.
- PriceAggregator.FetchPrice: prices are real numbers, so float64 rounding, overflow of the sum and NaN are not modelled.
- V3 `SendTransactions`, `ArgAddress` and `ArgBytesList` of the builder: they would only add easy members.
- The rest of the repository (price notifier, relayed transaction builders, polling, finality, command line tools): no property here.
