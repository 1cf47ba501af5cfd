# pkc-js in Dafny

A model of the parts of pkc-js whose correctness depends on several functions together, and proofs about them.
`dafny verify dfyconfig.toml` checks the whole project.

| file | component |
|---|---|
| `unixfs-encoding.dfy`, `unixfs-dag-size.dfy` | the UnixFS DAG size calculator, against a byte-level dag-pb/UnixFS encoder |
| `options.dfy`, `sequences.dfy` | shared definitions: optional values, sequences without repetition |
| `limited-set.dfy` | the bounded set that remembers loaded records |
| `lru-index.dfy`, `lru-interleaving.dfy` | the size-capped LRU blockstore: its index, and its steps in any interleaving |
| `lru-calls.dfy`, `lru-blockstore.dfy` | the same store with one call at a time: calls as runs of those steps, then the class |
| `names.dfy`, `ipns-chain.dfy` | name equivalence, the two delegated IPNS chain walkers, the anchor claim, the gateway validator |
| `gateway-selection.dfy` | the winner among racing gateways |
| `update-loop.dfy`, `update-loop-manager.dfy` | the push-driven community update loop: steps and invariants, then the class that performs them |
| `name-resolvers.dfy`, `author-verdicts.dfy` | the resolver loop and the author verdict protocol |
| `page-entries.dfy`, `reply-tree.dfy`, `page-sort.dfy` | page filters, the descendant lookup, partition and ordering |
| `community-list.dfy`, `community-list-class.dfy` | run ownership in a CommunityList |

How the asynchronous parts are modelled: one step is one stretch of code between two awaits, an event carries
whatever the outside world decided (a network outcome, a timer, a name answer), a step whose code cannot run in the
present state does nothing, and a run is any sequence of events. "In every run" therefore means every interleaving.
Fields that only record history (counts, logs, epochs) are never read by a step. The classes hold the same state as
fields. `Valid()` of a class is what was proved to hold between any two steps of the model; every method keeps it,
performs its step and says what a caller may rely on. `Drive` takes an object through any run.

Stated assumptions: the clock never goes back; content addressing and signatures are functions or parameters; event
listeners do not call back into the object that emits; one update loop runs per community instance; in-memory caches
do not evict an entry before its ttl; reply lists have unique cids.

Where the code differs from its comments, or from what one would expect of it, the model follows the code:

- `src/community/community-client-manager.ts:369-372` says a mismatch before the first record is deferred; lines
  828-844 migrate when no record is loaded, and so does `AnswerName`.
- `src/community/community-client-manager.ts:666-668` says the loop exits after a park ended by an abort. After a key
  migration it does not: the old signal is aborted, a new one replaces it, and the loop condition passes.
- `src/clients/base-client-manager.ts:1051-1055`: a cached entry whose key is the empty string ends the resolver loop
  with no key, although only non-empty keys are written.
- `src/helia/lru-blockstore.ts:210-218` folds a put into a registered eviction run. A run that has made its last test
  but whose `finally` is still pending counts as registered, so the cap can be exceeded while idle. `CapAfterStep`
  and `CapHoldsIffNeverFoldedTooLate` give the exact condition and `CapCanBeExceeded` a run.
- `src/helia/lru-blockstore.ts:85-92` keeps an index of what the child holds, but puts, deletes and evictions of one block
  may overlap. An eviction's delete that settles after the block was stored again, and a `delete` between a put's two
  halves, each leave an entry without a block. `BackedAfterStep` and `BackedIffNoBlockLost` give the exact condition,
  `OverlappingEvictionCanLoseBlock` and `OverlappingDeleteCanLoseBlock` the runs, `FailedReadRepairsIndex` the repair.
- `src/community-list/community-list.ts:416` says stop aborts an in-flight load. A one-shot load whose controller was
  overwritten by a later load is not reached. `StopIsFinalUnlessLoadMissed` gives the exact condition and
  `StopCanMissLoad` a run. The program does not produce that run: the only caller of the one-shot load,
  `getCommunityList` (`src/pkc/pkc.ts:630-681`), creates the list itself and hands it out only after the load has settled
  and `stop()` has been awaited. `OrderlyStopsAreFinal` proves that every stop is final in every run with such loads.
- `src/clients/base-client-manager.ts:1180` joins name and signer without a separator. `CacheKeyCollides` says exactly
  which pairs share a key (`TwoAuthorsCanShareKey` has two), and `CacheKeyIsInjective` that signers of one length do not.

## Model

| member | source | states |
|---|---|---|
| UnixFsEncoding.VarintRoundTrip | src/util.ts:1460-1467 | the varint encoding that is being sized can be read back, whatever follows it |
| UnixFsEncoding.ImportKeepsContent | src/util.ts:1501-1517 | chunking and any number of levels keep every byte of the file, in order |
| UnixFsEncoding.ImportIsBalanced | src/util.ts:1501-1517 | the DAG is the balanced layout: leaves at one depth, at most 174 links, complete except on the right edge |
| UnixFsEncoding.SmallFilesAreTheseBlocks | src/util.ts:1475-1479 | the blocks of the empty file and of every file of one byte, byte for byte |
| UnixFsEncoding.ParentIsThisBlock | src/util.ts:1481-1499 | a parent over two small children, byte for byte: hash, empty name and Tsize a link, then file size and block sizes |
| UnixFsEncoding.LimitsOfLayout | src/util.ts:1455-1456 | a chunk is at most 262144 bytes and a parent has at most 174 children, filled from the left |
| UnixFsDagSize.ProtobufVarintBytes | src/util.ts:1460-1467 | the division loop returns the length of the varint encoding |
| UnixFsDagSize.LeafIsSummarised | src/util.ts:1475-1479 | the leaf size is the length of the encoded leaf block, with no Data field for an empty chunk |
| UnixFsDagSize.UnixFsParentNode | src/util.ts:1485-1499 | the accumulator loop computes the parent's size and file bytes |
| UnixFsDagSize.ParentIsSummarised | src/util.ts:1485-1499 | those are the total length of all blocks below an encoded parent, and the length of the content below it |
| UnixFsDagSize.NextLevel | src/util.ts:1511-1514 | one pass over a level yields its parents, 174 children each |
| UnixFsDagSize.ReduceLevels | src/util.ts:1510-1516 | the level loop terminates at the root of the balanced tree |
| UnixFsDagSize.CalculateUnixFsDagSizeCidV0 | src/util.ts:1501-1517 | rejects exactly negative and fractional lengths; otherwise, for every file of that length and every hash, the result is the total length of all its blocks |
| UnixFsDagSize.DagSizeIsBlockTotal | src/util.ts:1449-1454 | the size depends only on the length and equals the encoder's total |
| UnixFsDagSize.DagSizeStrictlyIncreases | src/util.ts:1501-1517 | every added byte adds at least one byte, across varint, chunk and height boundaries |
| UnixFsDagSize.CapIsLengthThreshold | src/community-list/community-list.ts:304-306 | a size cap is one length threshold: exactly the shorter contents fit |
| LimitedSets.LimitedSet.constructor | src/general-util/limited-set.ts:6-10 | starts empty and valid |
| LimitedSets.LimitedSet.Add | src/general-util/limited-set.ts:12-35 | refreshes a known value, else pushes out the oldest at capacity; Set and array stay equal, without repetition, within capacity; re-adding leaves the Set's order alone |
| LimitedSets.LimitedSet.Has | src/general-util/limited-set.ts:37-39 | membership agrees with the insertion order |
| LimitedSets.LimitedSet.Delete | src/general-util/limited-set.ts:41-50 | reports and removes exactly the value, from both |
| LimitedSets.LimitedSet.Clear | src/general-util/limited-set.ts:52-55 | empties both |
| LimitedSets.AddTrace | src/general-util/limited-set.ts:12-35 | any trace of adds leaves the last `maxSize` distinct values of the trace by most recent add |
| LimitedSets.RecentIsOrdered | src/general-util/limited-set.ts:12-35 | the trace function orders by last add |
| LimitedSets.AddAllKeepsMostRecent | src/general-util/limited-set.ts:12-35 | folding the add rule over a trace equals the trace function |
| LimitedSets.KeptAreNewerThanDropped | src/general-util/limited-set.ts:20-28 | every kept value was added more recently than every dropped one |
| LimitedSets.LastIsSuffix | src/general-util/limited-set.ts:20-28 | what is kept is the end of the order, as long as there is room and never longer |
| LruIndex.EvictsShortestPrefix | src/helia/lru-blockstore.ts:220-240 | eviction drops exactly the shortest prefix that brings the total to the low water mark |
| LruIndex.EvictsOnlyOverCap | src/helia/lru-blockstore.ts:210-240 | nothing is evicted up to the cap; above it the total ends at or below the low water mark |
| LruIndex.RecencyAfterRegister | src/helia/lru-blockstore.ts:116-131 | using a key makes it the most recent and keeps the order of the rest |
| LruIndex.EvictedAreLessRecent | src/helia/lru-blockstore.ts:220-240 | every evicted block was last used before every survivor |
| LruBlockstores.Configure | src/helia/lru-blockstore.ts:94-101 | accepts exactly a positive cap, whole or fractional, and a ratio in (0, 1]; the low water mark never exceeds the cap |
| LruBlockstores.WholeMarksDecideAlike | src/helia/lru-blockstore.ts:94-101 | the whole parts of both marks decide over every byte total exactly as the unrounded ones |
| LruBlockstores.LruBlockstore.constructor | src/helia/lru-blockstore.ts:94-101 | starts valid, as the empty interleaved store over any child |
| LruBlockstores.LruBlockstore.TouchKey | src/helia/lru-blockstore.ts:116-121 | moves a known key to the back; accounting, order of use and backing kept |
| LruBlockstores.LruBlockstore.RegisterKey | src/helia/lru-blockstore.ts:123-131 | replaces or adds an entry at the back; exact total, order of use and backing afterwards |
| LruBlockstores.LruBlockstore.UnregisterKey | src/helia/lru-blockstore.ts:133-138 | removes an entry; exact total, order of use and backing afterwards |
| LruBlockstores.LruBlockstore.Evict | src/helia/lru-blockstore.ts:220-244 | leaves the suffix at or below the low water mark, even when the child refuses a delete; no block leaves the child but those whose entry was evicted; its steps are the child's answers and nothing else |
| LruBlockstores.LruBlockstore.EvictIfNeeded | src/helia/lru-blockstore.ts:210-218 | evicts only above the cap and ends within it; no other block leaves the child |
| LruBlockstores.LruBlockstore.Put | src/helia/lru-blockstore.ts:144-150 | within the cap afterwards, exact sum, order of use, every entry backed by a child block, no block gone but evicted ones; a failing child changes nothing; the call is a run of the interleaved store in which only it acts |
| LruBlockstores.LruBlockstore.Get | src/helia/lru-blockstore.ts:152-178 | failed, abandoned or read exactly as the child and the caller decide; touches a known key, registers an unknown one only when fully read, drops the entry on failure; same invariants, and such a run |
| LruBlockstores.LruBlockstore.Delete | src/helia/lru-blockstore.ts:180-183 | removes block and entry; same invariants, and such a run |
| LruBlockstores.LruBlockstore.RebuildIndex | src/helia/lru-blockstore.ts:257-274 | appends exactly the missing scanned blocks, in scan order, then evicts to within the cap; same invariants, and such a run |
| LruCalls.ScanCountsAll | src/helia/lru-blockstore.ts:257-274 | a scan counts every block it sees and none that was counted before |
| LruCalls.AloneIsHarmless | src/helia/lru-blockstore.ts:144-274 | the steps of a call that runs alone never fold too late, and lose a block exactly when the call deletes an indexed one |
| LruBlockstores.Drive | src/helia/lru-blockstore.ts:144-274 | any history of calls, each finished before the next, is a run of the interleaved store without late folds, and without lost blocks unless some call is a delete; so both exact conditions hold for it |
| LruInterleaving.AccountingHoldsInEveryRun | src/helia/lru-blockstore.ts:116-183 | in every interleaving the total is the sum of the index, keys are unique and in order of use |
| LruInterleaving.CapAfterStep | src/helia/lru-blockstore.ts:210-218 | a step keeps the cap if and only if it does not fold an over-cap store into a finished run |
| LruInterleaving.CapHoldsIffNeverFoldedTooLate | src/helia/lru-blockstore.ts:210-244 | throughout a run the store is within its cap whenever no eviction or scan is under way, if and only if the run has no such step |
| LruInterleaving.CapCanBeExceeded | src/helia/lru-blockstore.ts:210-218 | a run that ends idle and over the cap |
| LruInterleaving.BackedAfterStep | src/helia/lru-blockstore.ts:144-183 | from a store whose every entry has its child block, a step keeps that if and only if it does not lose a block: the child drops an indexed block, a block that is gone by now is registered and not evicted at once, or an eviction's delete settles for a key that is indexed again and not dropped next |
| LruInterleaving.BackedIffNoBlockLost | src/helia/lru-blockstore.ts:144-244 | throughout a run every entry has its child block if and only if no step of the run loses one |
| LruInterleaving.OverlappingEvictionCanLoseBlock | src/helia/lru-blockstore.ts:220-240 | a put during the eviction of its own block leaves an entry without a child block |
| LruInterleaving.OverlappingDeleteCanLoseBlock | src/helia/lru-blockstore.ts:144-183 | so does a put whose block a concurrent `delete` removes before it is registered |
| LruInterleaving.FailedReadRepairsIndex | src/helia/lru-blockstore.ts:162-169 | a failed read removes that entry, keeps the accounting and touches no other entry |
| Names.EquivalentIffSameCanonical | src/domain-util.ts:16-27 | equivalence is equality of one canonical spelling |
| Names.EquivalentIffSameStem | src/domain-util.ts:11-27 | two names are equivalent if and only if they are spelled alike, or both end in .eth or .bso in any case and the rest differs only in the case of letters |
| Names.EquivalentIsTransitive | src/domain-util.ts:23-27 | equivalence is transitive and symmetric |
| Names.OtherNamesMatchExactly | src/domain-util.ts:20-25 | a name that is not .eth or .bso, such as a key, is equivalent only to itself |
| Names.BsoIsEth | src/domain-util.ts:16-27 | one stem with .eth or .bso in any case, and with its lower-case stem, is one name |
| IpnsChain.PathKindsAreExclusive | src/util.ts:517-526 | no value is both an /ipfs/ and an /ipns/ path, and an /ipfs/ path has a third segment |
| IpnsChain.IpfsPathShape | src/util.ts:517-519 | the prefix followed by a segment, and anything after it, is an ipfs path to that segment |
| IpnsChain.IpnsPathShape | src/util.ts:521-526 | the prefix followed by a name, and anything after it, is an ipns path to that name if and only if the name is not empty |
| IpnsChain.IpnsPathsHaveShape | src/util.ts:521-526 | and every ipns path has that shape, up to what stands before its first slash |
| IpnsChain.ChainIsUnique | src/clients/base-client-manager.ts:704-759 | the records determine the chain of a name |
| IpnsChain.ResolveIpnsToCidP2P | src/clients/base-client-manager.ts:704-759 | for every record map, cyclic ones included, and every cap: at most cap + 1 lookups; resolves exactly the chains that fit and parse; too many hops exactly when the first cap + 1 records delegate; any other error is that of the name where the delegation stops |
| IpnsChain.ResolveIpnsChainViaGateway | src/community/community-client-manager.ts:1572-1619 | the same contract for the gateway walker, for which an empty value is an unsupported one |
| IpnsChain.WrittenChainIsWalked | src/community/community-client-manager.ts:1558-1619 | over records written as /ipns/ values ending at an /ipfs/ value, a walk that meets the contract gives exactly those hops and that cid, or too many hops when they exceed the cap |
| IpnsChain.WalkersAgree | src/community/community-client-manager.ts:1558-1566 | two walks over the same records give the same hops, cid and lookups, or both fail |
| IpnsChain.ProveAnchorClaimIfUnwalked | src/community/community-client-manager.ts:1636-1673 | keeps a walked chain, a missing claim and a claim of the loaded name; any other claim is accepted exactly when the claimed anchor's own chain ends at the loaded name |
| IpnsChain.ValidateGatewayChain | src/community/community-client-manager.ts:1242-1281 | a gateway record passes if and only if its hops are justified |
| IpnsChain.AcceptedHopsAreBound | src/community/community-client-manager.ts:1234-1281 | accepted hops are validated delegations ending at a key equivalent to the signer; they start elsewhere than asked only at a claimed anchor whose chain ends at the name asked, and a claim of another anchor needs that chain |
| IpnsChain.HonestRecordsAreJustified | src/community/community-client-manager.ts:1234-1281 | whom the validator must accept: a record signed for the name asked without a foreign claim, a record bound to its signer and body by the chain of the name, a claim endorsed by the claimed anchor's chain |
| GatewaySelection.SelectWinningGatewayCommunity | src/community/community-gateway-selection.ts:29-57 | a winner exists exactly when some gateway is newer than the loaded record; it is the first newest and keeps its own cid and hops, or the name asked for when it has none |
| GatewaySelection.LaterOlderAnswersKeepWinner | src/community/community-gateway-selection.ts:25-52 | a later, not newer answer does not change the winner |
| UpdateLoop.NoLostWakeup | src/community/community-client-manager.ts:531-562 | in every reachable state a park that nothing has ended has no pending arrival |
| UpdateLoop.ArrivalIsHeard | src/community/community-client-manager.ts:531-543 | whatever the loop is doing, a pushed value with news is recorded and wakes and ends the park it finds; exactly a cid already loaded or current, a hop already walked and any other value change nothing |
| UpdateLoop.NewsOfPaths | src/community/community-client-manager.ts:531-541 | which values are news of a cid, of a hop, or of nothing |
| UpdateLoop.FateOfPendingNews | src/community/community-client-manager.ts:553-562 | over every run, an arrival that was pending and no longer is met its fate at some step in between: consumed by the cycle that ran, answered by a cycle starting at once, or dropped by migration, stop or loop end |
| UpdateLoop.NewsNeedsNoTimer | src/community/community-client-manager.ts:638-671 | in every reachable state of a loop that is neither stopped nor aborted, unconsumed news makes the loop's own steps start a cycle, without the timer and, after a park, without forcing the network |
| UpdateLoop.NoSleepOutlivesItsSignal | src/community/community-client-manager.ts:638-652 | in every reachable state a sleep whose signal was aborted, by a stop or by a migration, has ended |
| UpdateLoop.CountsAreHonest | src/community/community-client-manager.ts:439-464 | the counts of the next row are what they are called: cycles are steps into a fetch, park ends are parks that the timer or an abort ended |
| UpdateLoop.NoHotSpin | src/community/community-client-manager.ts:439-464 | over every run, early re-runs are at most the accepted arrivals, and cycles at most one plus timer ends, abort ends and accepted arrivals |
| UpdateLoop.AppliedRecordsAreCurrent | src/community/community-client-manager.ts:300-345 | over every run, an applied record was fetched under the key, stop signal and epoch still current, and updatedAt strictly rises within an epoch |
| UpdateLoop.RecordsChangeOnlyWhenCurrent | src/community/community-client-manager.ts:300-345 | said of the states: in every reachable state, a step that brings a new record ends a fetch whose key, signal and epoch are still current, and the record is newer |
| UpdateLoop.FetchEndsFinished | src/community/community-client-manager.ts:315-345 | a found record is applied if and only if the fetch is not stale and the record is newer than the loaded one; then record and updateCid are those found, and otherwise nothing changes |
| UpdateLoop.OnlyForeignKeysMigrate | src/community/community-client-manager.ts:822-852 | an answer to the community's own name moves it exactly for a key outside its chain; any other only judges, `true` exactly for the current key; an answer to another name does nothing |
| UpdateLoop.TrueVerdictIsNeverStale | src/community/community-client-manager.ts:343-356 | over every run of a loop, also one restarted on an instance that already holds a verdict, a `true` nameResolved is about the current name and the current key |
| UpdateLoop.StepIsValid | src/community/community-client-manager.ts:398-467 | every step keeps all of it at once: no lost wakeup, earned cycles, sleeps that listen, safe epochs, a current verdict |
| CommunityClients.CommunityClientsManager.constructor | src/community/community-client-manager.ts:398-441 | starts valid, updating, in the first fetch under a fresh signal and the community's key |
| CommunityClients.CommunityClientsManager.OnIpnsRecordArrival | src/community/community-client-manager.ts:531-543 | an arrival with news is recorded and wakes and ends the park it finds, any other changes nothing; the loop stays valid |
| CommunityClients.CommunityClientsManager.ConsumePendingIpnsArrivals | src/community/community-client-manager.ts:553-562 | true exactly when something unconsumed is left; nothing stays pending |
| CommunityClients.CommunityClientsManager.BeginSleep | src/community/community-client-manager.ts:638-652 | re-runs at once exactly when some pending arrival was not consumed by the finished cycle, else parks listening to the controller in use; nothing stays pending; the loop stays valid |
| CommunityClients.CommunityClientsManager.EndSleep | src/community/community-client-manager.ts:652-671 | nothing is left pending whatever ended the park, the cause is the arrival exactly when one woke it, and the network is forced exactly when none did and the floor has passed; the loop stays valid |
| CommunityClients.CommunityClientsManager.TestLoopCondition | src/community/community-client-manager.ts:439-467 | fetches exactly while updating with a standing signal, holding the current key, signal and epoch; otherwise leaves with nothing pending and no controller; the loop stays valid |
| CommunityClients.CommunityClientsManager.OnSleepTimer | src/community/community-client-manager.ts:638-652 | the timer ends exactly a park that nothing ended before, and then nothing is pending; the loop stays valid |
| CommunityClients.CommunityClientsManager.RecordFetchProgress | src/community/community-client-manager.ts:1085-1140 | what a fetch writes on its way touches only the loaded cids, the hops and the network flag; the loop stays valid |
| CommunityClients.CommunityClientsManager.InitCommunityIpfsProps | src/community/remote-community.ts:359-450 | the identity is the claimed anchor, else the first hop, else the signer; the name is the record's; a verdict is kept exactly if it still describes the same key and an equivalent name |
| CommunityClients.CommunityClientsManager.FinishUpdateOnce | src/community/community-client-manager.ts:315-356 | a found record is applied exactly when the fetch is not stale and the record is newer; otherwise nothing changes; the loop stays valid |
| CommunityClients.CommunityClientsManager.AbortStopOperations | src/community/remote-community.ts:177-180 | whatever controller there was is aborted, and a sleep listening to it has ended |
| CommunityClients.CommunityClientsManager.CreateStopAbortController | src/community/remote-community.ts:164-167 | afterwards a controller exists whose signal was never aborted; a standing one is kept, and no aborted signal comes back |
| CommunityClients.CommunityClientsManager.ApplyKeyMigration | src/community/community-client-manager.ts:713-743 | only the new key is left, record, updateCid and loaded cids are gone, every operation under the old signal is aborted, the loop has a standing signal, and it stays valid |
| CommunityClients.CommunityClientsManager.OnNameAnswer | src/community/community-client-manager.ts:822-852 | migrates exactly for a key outside the community's own chain; any other answer changes the verdict only, to `true` exactly for the current key; an answer to another name changes nothing; the loop stays valid |
| CommunityClients.CommunityClientsManager.StopUpdating | src/community/remote-community.ts:1024-1038 | the current signal is aborted, a park on it has ended, nothing stays pending or loaded; a community that is not updating is left alone; the loop stays valid |
| CommunityClients.CommunityClientsManager.FinishStop | src/community/remote-community.ts:1033-1040 | afterwards the community is not updating; the loop stays valid |
| CommunityClients.Drive | src/community/community-client-manager.ts:398-467 | whatever events reach the object, in whatever order, it stays valid and goes through the run of the loop with those events |
| NameResolvers.ResolveViaNameResolvers | src/clients/base-client-manager.ts:1040-1108 | each outcome if and only if its meaning: the first key in order, no key after some answer, all capable errored, none capable, aborted |
| NameResolvers.OutcomeIsUnique | src/clients/base-client-manager.ts:1040-1108 | those meanings leave no choice |
| NameResolvers.CachedKeysAreYoung | src/clients/name-resolution-cache.ts:39-53 | a cached key is used if and only if it is no older than the caller allows |
| NameResolvers.FirstOfferWins | src/clients/base-client-manager.ts:1040-1108 | a key on offer, from a young cache entry or else from the network, is the answer when every resolver before it answered nothing, failed or could not |
| AuthorVerdicts.AtMostOneAttempt | src/clients/base-client-manager.ts:1184-1194 | over all runs and overlapping callers, one outstanding attempt a key |
| AuthorVerdicts.NextAttemptWaits | src/clients/base-client-manager.ts:1183-1245 | after an attempt that was not aborted, the next one starts only after that outcome's ttl or the retry floor |
| AuthorVerdicts.VerdictsRestOnAnswers | src/clients/base-client-manager.ts:1209-1241 | `true` needs the signer's key from a resolver, any verdict needs an answer, and an outage writes none |
| AuthorVerdicts.SettlingIsRemembered | src/clients/base-client-manager.ts:1209-1245 | outcome by outcome what is written, for how long, and that the key is free again |
| AuthorVerdicts.CachedVerdictsAreEarned | src/clients/base-client-manager.ts:1203-1241 | over every run, each cached verdict has the resolution that justifies it |
| AuthorVerdicts.CacheKeyIsInjective | src/clients/base-client-manager.ts:1180 | for signers of one length, two pairs share a cache key if and only if they are the same pair |
| AuthorVerdicts.CacheKeyCollides | src/clients/base-client-manager.ts:1180 | in general two pairs share a key if and only if one signer is the tail of the other and the surplus ends the other name |
| AuthorVerdicts.CachedVerdictIsAboutItsAuthor | src/clients/base-client-manager.ts:1203-1241 | over every run whose signers have one length, the verdict a pair reads from the cache was settled by an attempt for that very pair |
| AuthorVerdicts.ExactlyUnblockedAreAsked | src/clients/base-client-manager.ts:1174-1195 | a call starts attempts for exactly the resolvable domains that no verdict, attempt or failure blocked when it began |
| AuthorVerdicts.BlockedExactlyWhileLive | src/clients/base-client-manager.ts:1183-1192 | a key is held back exactly while a verdict or failure about it has not run out or it is in flight |
| AuthorVerdicts.AdmissionIsLogged | src/clients/base-client-manager.ts:1193-1195 | every attempt that starts is logged at its start, so the pacing results are about all attempts |
| AuthorVerdicts.CallWritesNothing | src/clients/base-client-manager.ts:1171-1197 | admission writes no verdict and no failure |
| AuthorVerdicts.AuthorNameCaches.constructor | src/clients/base-client-manager.ts:1164-1169 | starts valid, with empty caches and nothing in flight |
| AuthorVerdicts.AuthorNameCaches.ResolveAuthorNamesInBackground | src/clients/base-client-manager.ts:1171-1195 | the admission loop admits exactly the unblocked authors, and its `seen` set is redundant; one attempt a key and pacing kept |
| AuthorVerdicts.AuthorNameCaches.ResolveOne | src/clients/base-client-manager.ts:1209-1245 | one attempt settles as the outcome of the resolver loop and releases its key; one attempt a key and pacing kept |
| AuthorVerdicts.Drive | src/clients/base-client-manager.ts:1171-1245 | whatever callers ask and whenever attempts settle, the caches stay valid and go through the run of the protocol with those events |
| PageEntries.AdmittedNamesAreEquivalent | src/pages/page-sort-scoring.ts:28-41 | a row admitted under a name was signed for a name equivalent to the community's |
| PageEntries.BelongsExactly | src/pages/page-sort-scoring.ts:28-41 | whom the identity rule admits: no name, that name, or its stem with the other suffix; no key or that key |
| PageEntries.KeptExactly | src/pages/page-sort-scoring.ts:43-65 | what survives the exclusions, flag by flag |
| PageEntries.IndexByParent | src/pages/page-sort-scoring.ts:152-161 | the index maps each parent to its stripped children in list order, and holds no other key |
| ReplyTree.DescendantsOf | src/pages/page-sort-scoring.ts:162-175 | for every cid that is not its own descendant: terminates and returns exactly the entries whose parent chain through the list reaches the cid, each once |
| ReplyTree.SearchEndsUnlessOnCycle | src/pages/page-sort-scoring.ts:162-175 | the stack empties if and only if the cid is not its own descendant; a cycle elsewhere in the list does not matter |
| ReplyTree.UnderIffParentIs | src/pages/page-sort-scoring.ts:162-175 | a reply lies under a comment if and only if it answers it or something under it |
| ReplyTree.LookUpDescendants | src/pages/page-sort-scoring.ts:72-175 | filter, index and search together return exactly the community's replies below the cid, each once |
| ReplyTree.TombstonesKeepSubtrees | src/pages/page-sort-scoring.ts:67-89 | no change of moderation flags changes which cids lie under any comment |
| ReplyTree.TombstonesKeepLookup | src/pages/page-sort-scoring.ts:67-89 | whatever moderation did to the replies, the lookup answers with the same cids |
| PageSort.Kept | src/pages/page-sort-scoring.ts:126-136 | names the first entry without a numeric score, else the sorted non-declined entries |
| PageSort.OrderPageCommentsByScore | src/pages/page-sort-scoring.ts:115-138 | pinned group then unpinned group, or the first fault |
| PageSort.StableOrderIsUnique | src/pages/page-sort-scoring.ts:112-114 | descending and stable determine the order, whatever the sorting algorithm |
| PageSort.PageIsPermutation | src/pages/page-sort-scoring.ts:94-138 | the page is a permutation of the pinned or in-window comments with a score |
| PageSort.PageHoldsExactly | src/pages/page-sort-scoring.ts:94-138 | a comment is on the page if and only if it has a score and is pinned while pins go first, or there is no age limit, or it is within it |
| PageSort.PageFaultsExactly | src/pages/page-sort-scoring.ts:126-136 | a page is refused if and only if some comment that would be on it has no number for a score |
| PageSort.FaultIsFirst | src/pages/page-sort-scoring.ts:126-136 | the fault that is named is the first in order |
| PageSort.PageIsOrdered | src/pages/page-sort-scoring.ts:91-138 | pinned first, each group descending and stable on ties |
| PageSort.ResortingIsIdentity | src/pages/page-sort-scoring.ts:112-114 | re-sorting a page with the same options, base time and scores gives the same page |
| CommunityLists.OwnershipHolds | src/community-list/community-list.ts:136-226 | in every interleaving at most one run is live, the state is its state, membership in the updating set is being updating, and a held record matches its cid |
| CommunityLists.AbortedRunsAreInert | src/community-list/community-list.ts:186-190 | a run or load whose signal was aborted changes neither state, cid, record nor controller, and disturbs no newer run |
| CommunityLists.StopIsFinalUnlessLoadMissed | src/community-list/community-list.ts:254-294 | after a stop nothing that settles later changes state, membership, cid or record, if and only if the stop missed no one-shot load that lost its place as the current load and could bring another record |
| CommunityLists.OrderlyStopsAreFinal | src/community-list/community-list.ts:254-294 | in every run where a one-shot load starts on an idle list and nothing else starts until it settles, every stop is final |
| CommunityLists.StopCanMissLoad | src/community-list/community-list.ts:262-265 | outside that use: an update displaces a one-shot load, the stop does not reach it, and its record arrives after the stop |
| CommunityListObject.CommunityList.constructor | src/community-list/community-list.ts:53-63 | starts valid and stopped, with or without a cid |
| CommunityListObject.CommunityList.Publish | src/community-list/community-list.ts:136-143 | starts a run, and makes it the owner, exactly when stopped; ownership kept |
| CommunityListObject.CommunityList.ResetIfOwner | src/community-list/community-list.ts:186-190 | the run is gone and no other run changed; an aborted run leaves the state alone, a live one stops the list; ownership kept |
| CommunityListObject.CommunityList.AfterSigning | src/community-list/community-list.ts:144-156 | goes on exactly when signed and not aborted; an aborted run changes nothing visible, a live one that failed stops the list; ownership kept |
| CommunityListObject.CommunityList.AfterAdding | src/community-list/community-list.ts:158-190 | an aborted run changes nothing visible; a live one stops the list, with the new record under its own cid when the add succeeded; ownership kept |
| CommunityListObject.CommunityList.Update | src/community-list/community-list.ts:195-204 | starts a run, makes it the owner and joins the updating set exactly when stopped with a cid; ownership kept |
| CommunityListObject.CommunityList.RunUpdateLoop | src/community-list/community-list.ts:206-216 | changes nothing visible; ends exactly when aborted, else waits for a new load of the present cid exactly when there is no record; ownership kept |
| CommunityListObject.CommunityList.LoadOnce | src/community-list/community-list.ts:254-269 | a one-shot load starts exactly with a cid and without a record; ownership kept |
| CommunityListObject.CommunityList.AfterLoad | src/community-list/community-list.ts:270-294 | an aborted or failed load changes nothing visible; any other brings its record under the cid asked for; the state never changes and the owner moves on; ownership kept |
| CommunityListObject.CommunityList.FinishUpdateLoop | src/community-list/community-list.ts:216-226 | an aborted run changes nothing visible and no signal; a live one leaves the list stopped, outside the updating set, with every run aborted; ownership kept |
| CommunityListObject.CommunityList.StopRuns | src/community-list/community-list.ts:417-424 | stopped, outside the updating set, every run aborted, and every load except a displaced one-shot load; ownership kept |
| CommunityListObject.Drive | src/community-list/community-list.ts:136-226 | whatever is called and settles, in whatever order, the object stays valid and goes through the run of the model with those events |
| CommunityListObject.StopThenSettle | src/community-list/community-list.ts:417-424 | on the object: after a stop that misses no load, what settles later leaves it stopped with its cid and record |

## Left out

- HTTP, kubo, helia and RPC transport, timeouts, retry back-off and concurrency limits: outcomes arrive as events.
- Signature, CID and IPNS record validation, and `verifyCommunity`: opaque.
- IpnsChain.WalkersAgree: takes one cid parser for both transports; the peer-to-peer path keeps the cid as spelled, the gateway path converts it to version 0.
- ReplyTree.DescendantsOf: needs unique cids, as content addressing gives, and a cid that is not its own descendant; `SearchEndsUnlessOnCycle` proves that for any other cid the source's loop does not end.
- LruBlockstores.Configure: an infinite cap, which the source accepts and which never evicts, is not modelled.
- UnixFsDagSize.CalculateUnixFsDagSizeCidV0: integers are unbounded; a length past the exact range of a double is not modelled.
- PageSort: scores are finite; the infinities of a double are not modelled.
- Names: case folding covers the ASCII letters; JavaScript also folds other scripts.
- LimitedSets: `values()` and the other iterators follow the JS Set's order, which a re-add does not refresh; recency is proved about the insertion order only.
- The cids already loaded (a LimitedSet of 30) are an arbitrary set in the update loop, so any eviction is covered.
- More than one update loop on an instance (a stop followed by an update while the old loop is still fetching).
- Retry floors and the in-flight guard of the community's own name resolution: an answer may arrive at any time.
- `publish()` on a list without a signer, `update()` without a cid and other calls that throw before changing anything: the step does nothing.
- Writing resolved keys to the persistent name cache, resolver hooks of subclasses, and the list's own one-shot author verdict.
- Poll pacing, etag memory, arrival subscriptions, mirrored instances, RPC classes, schemas, state emitters: one-branch logic or event forwarding.
- `has`, `getAll` and the `*Many` forms of the blockstore: forwarding.
