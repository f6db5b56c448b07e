# Verification of the blockchain services' derived state

The services of this repository keep derived state in step with a blockchain and a metadata
repository: a block index with a verified-height watermark, locked-amount totals, application
and token tables, fee estimates, per-day export caches, event texts and daily statistics. This
project models that state in Dafny and proves that the incremental or cached form agrees with a
plain recomputation, over every run. Where a law fails for some inputs, the code is kept as it
is, a lemma exhibits a failing input, and an if-and-only-if states the guard under which the law
holds.

| file | models |
|---|---|
| `IndexCompleteness.dfy` | the gap query, `range`, and the coordinator's sweep and watermark |
| `LockedLedger.dfy` | the lock/unlock folds and the totals updated inside a database transaction |
| `MetadataIndex.dfy`, `RegistrySync.dfy`, `IncrementalRebuild.dfy`, `IndexContents.dfy` | the app-registry tables, the sync by diff, its agreement with a rebuild, and what the rows hold |
| `ByteWindow.dfy`, `BlockFees.dfy`, `FeeBatch.dfy` | the fee estimator: byte-window average, per-block step, resumable batch loop |
| `Text.dfy`, `SchemaParser.dfy`, `KeyValueStore.dfy` | decimal and hexadecimal text, the schema parser and printer, the typed key-value rows |
| `ExportCache.dfy` | the per-day export with its two caches |
| `EventRetention.dfy` | storing and deleting serialized events |
| `GenesisAssets.dfy` | paged genesis sub-stores and their sums |
| `TransactionPaging.dfy` | pages over pending and confirmed transactions |
| `TransactionStatistics.dfy` | daily statistics rows and the distribution by type |
| `Results.dfy`, `Sorting.dfy`, `Filtering.dfy`, `Paging.dfy` | error returns, the stable sort, filters and slices, shared by the above |

`dafny verify dfyconfig.toml` checks the whole project.

## How it is modelled

- Objects whose methods update fields (the coordinator, the ledger and its open transaction, the
  registry, the event store, the export service) are classes; their methods are tied to functions
  on values, and the laws over runs are proved about those functions.
- Exceptions are `Err` results, outcomes or failures of outside calls. In the registry and the event
  store a field `calls` says how many awaited calls succeed before one fails: file reads, downloads,
  database statements, the commit and the file moves. In the fee loop `failAfter` counts turns, and in
  the ledger `fails` rolls a job back after its updates. A law stated for all their values covers a
  failure at each of these points.
- Open transactions of the ledger, the registry and the event store are fields of their own, which a
  commit copies to the durable fields and a rollback forgets.
- A table is a map from its primary key to its row. `keyValueTable.get` reads committed rows and
  never the open transaction, as `services/blockchain-indexer/shared/database/mysqlKVStore.js:56-65`
  passes no transaction.
- Jobs run one at a time. In a registry sync the concurrent app groups run in any order, one group
  after the other; each group is shown to touch its own rows only.
- Numbers of the fee estimator are reals, days are integers, and the value bucket of the
  statistics is an arbitrary function.

## What turned out to hold only under a guard

- A sweep that reports nothing moves the watermark past a trailing gap; it is safe exactly when
  the height before the current one is indexed (`IndexCompleteness.WatermarkSafeIff`).
- Repairing the reported heights silences the next sweep exactly for windows of three heights or
  more (`GapQuery.RepairFixpointIff`).
- Several updates of one token in one transaction lose all but the last
  (`LockedLedger.JobConservesIff`, `LockedLedger.LedgerBalance`).
- A registry sync equals a rebuild exactly when each directory's change fits
  (`IncrementalRebuild.SyncEqualsRebuildIff`). The guard fails when a chain is renamed without its
  token list being in the diff (`IncrementalRebuild.RenamedChainLeavesTokens`), when an app lies on a
  network that a rebuild does not visit (`IncrementalRebuild.UnsupportedNetworkIsIndexed`), and when
  the local copies are older than the tables, as a failed move or a removal that is silently skipped
  leaves them (`IncrementalRebuild.FailedMoveLeavesTokens`). With fresh copies on a supported network
  it is a short condition on the old and new files (`IncrementalRebuild.FreshFitsIff`).
- A diff with a path of fewer than three segments aborts every sync
  (`RegistrySync.GroupFilesByNetworkAndApp`).
- The fee loop runs at least once, so it ends one height above a start that is not below its
  target (`FeeBatch.RunTurns`). A resumed run continues the recursion of the call that last
  started from zeros, which is its own start when the start never moves (`FeeBatch.OwnOrigin`).
- The byte window credits between nothing and three times its width; the usual credit, the width
  plus one, is characterised exactly (`ByteWindow.CreditIsWindowPlusTwoIff`).
- Parser and printer undo each other exactly on canonical inputs; a zero 64-bit number directly
  inside an array is not one (`SchemaParser.RoundTripIff`).
- The export caches are safe, in that no later export can deliver anything but the uncached
  transactions, exactly when no export ends after its own day (`ExportCache.CachesSafeIff`).
- Event texts are retained exactly when a block's finality is not stale at the time it is indexed
  (`EventRetention.RetainedIff`).
- A later merged page can be short; the exact condition is `TransactionPaging.MergedIsWindowIff`.
- The distribution by type counts the transactions of each day's last store exactly when no row of an
  earlier store is left over (`TransactionStatistics.DistributionIsExactIff`). Such rows stay because
  the lookup before the upsert is not awaited and the deletion is never reached
  (`TransactionStatistics.VanishedBucketStays`).
- `false` is the one value the key-value table does not give back (`KeyValueStore.StoreRoundTripIff`).

## Model

| member | source | states |
|---|---|---|
| `GapQuery.Range` | services/blockchain-indexer/shared/utils/array.js:18-27 | the list holds exactly the heights from start to end, ascending; a zero end counts as omitted and a negative size is an error |
| `GapQuery.Anchor` | services/blockchain-indexer/shared/indexer/blockchainIndex.js:442-442 | the anchor is the highest indexed height below the gap's end, over the whole table, or the window's start when there is none |
| `GapQuery.GapRows` | services/blockchain-indexer/shared/indexer/blockchainIndex.js:440-448 | a row is returned exactly for each indexed height strictly inside the window whose predecessor is not indexed |
| `GapQuery.Expand` | services/blockchain-indexer/shared/indexer/blockchainIndex.js:483-489 | the flattened list holds exactly the heights covered by some row, and fails only on an inverted row |
| `GapQuery.MissingBlocksAreReported` | services/blockchain-indexer/shared/indexer/blockchainIndex.js:422-489 | the computed list equals the reported set defined on the indexed heights alone, and fails only on an inverted window |
| `GapQuery.MissingBlocksAscend` | services/blockchain-indexer/shared/indexer/blockchainIndex.js:483-489 | no height is reported twice |
| `GapQuery.MissingIsReportedIff` | services/blockchain-indexer/shared/indexer/blockchainIndex.js:434-452 | a missing height of the window is reported if and only if fewer than three heights are indexed or one lies strictly between it and the window's end |
| `GapQuery.IndexedIsReportedIff` | services/blockchain-indexer/shared/indexer/blockchainIndex.js:439-448 | with three or more indexed heights, an indexed height is reported if and only if it is the left edge of a gap that closes inside the window |
| `GapQuery.RepairFixpointIff` | services/blockchain-indexer/shared/indexer/blockchainIndex.js:436-488 | once all reported heights are indexed the same window reports nothing, if and only if it spans three heights or more |
| `IndexCompleteness.Coordinator.ScheduleBlocksIndexing` | services/blockchain-coordinator/shared/scheduler.js:56-69 | every height is appended to the queue, in order |
| `IndexCompleteness.Coordinator.ScheduleMissingBlocksIndexing` | services/blockchain-coordinator/shared/scheduler.js:107-140 | one sweep either moves the watermark to the current height, or queues the reported heights, or fails and changes nothing |
| `IndexCompleteness.SweepQueuesReported` | services/blockchain-coordinator/shared/scheduler.js:107-140 | said of the indexed heights alone: the reported heights join the queue, each once and ascending, and the watermark moves to the current height exactly when there is none |
| `IndexCompleteness.IndexedQueueAdvancesIff` | services/blockchain-coordinator/shared/scheduler.js:119-136 | once all heights that a sweep queued are indexed, the next sweep moves the watermark, if and only if the window spans three heights or more |
| `IndexCompleteness.AdvanceWindow` | services/blockchain-coordinator/shared/scheduler.js:113-132 | the watermark moves only over windows of three heights or more, or one step back |
| `IndexCompleteness.SilentSweepCoversIff` | services/blockchain-coordinator/shared/scheduler.js:119-132 | after a silent sweep every swept height below the current one is indexed if and only if the last of them is |
| `IndexCompleteness.StepSafeIff` | services/blockchain-coordinator/shared/scheduler.js:107-140 | from a safe state, a step keeps every height below the watermark indexed if and only if it meets its guard |
| `IndexCompleteness.WatermarkSafeIff` | services/blockchain-coordinator/shared/scheduler.js:107-140 | every state of a run is safe if and only if every step of the run met its guard |
| `IndexCompleteness.TrailingGapIsMissed` | services/blockchain-indexer/shared/indexer/blockchainIndex.js:445-447 | a concrete sweep moves the watermark past heights that are not indexed |
| `LockedLedger.FoldLockedAmounts` | services/blockchain-indexer/shared/indexer/blockchainIndex.js:205-219 | the change map holds, for exactly the tokens of lock and unlock events, locked minus unlocked, negated for a deletion |
| `LockedLedger.Ledger.UpdateTotalLockedAmounts` | services/blockchain-indexer/shared/utils/blockchainIndex.js:21-31 | each token's committed total plus its change is written to the transaction and nothing else |
| `LockedLedger.Ledger.IndexBlock` | services/blockchain-indexer/shared/indexer/blockchainIndex.js:109-247 | a success commits the job's updates, a failure leaves the committed totals as they were |
| `LockedLedger.Ledger.ApplyEvents` | services/blockchain-indexer/shared/indexer/blockchainIndex.js:302-320 | a block without events updates nothing, and otherwise its fold is written after the earlier updates |
| `LockedLedger.Ledger.CloseTransaction` | services/blockchain-indexer/shared/indexer/blockchainIndex.js:328-332 | a commit applies the buffered rows, a rollback discards them |
| `LockedLedger.Ledger.DeleteIndexedBlocks` | services/blockchain-indexer/shared/indexer/blockchainIndex.js:255-343 | all blocks share one transaction, a block without a header fails the job, and a failure changes nothing |
| `LockedLedger.BufferedTotal` | services/blockchain-indexer/shared/utils/blockchainIndex.js:25-28 | a commit moves a total by the sum of its updates less what later updates of the same transaction overwrite |
| `LockedLedger.JobUpdatesSum` | services/blockchain-indexer/shared/indexer/blockchainIndex.js:204-220 | the updates of a job sum to the net locked amount of its blocks' events |
| `LockedLedger.JobConservesIff` | services/blockchain-indexer/shared/indexer/blockchainIndex.js:264-320 | a committed job changes a total by its events' net amount if and only if nothing it overwrites sums to other than zero |
| `LockedLedger.LedgerBalance` | services/blockchain-indexer/shared/indexer/blockchainIndex.js:204-235 | over any run of committed and rolled-back jobs the total is the initial one plus the net amounts less the exact loss |
| `LockedLedger.LedgerConservation` | services/blockchain-indexer/shared/indexer/blockchainIndex.js:301-332 | when no committed job updates a token twice, its total is exactly what the events of the committed jobs say |
| `LockedLedger.LedgerFromNothing` | services/blockchain-indexer/shared/utils/blockchainIndex.js:25-28 | from an empty store every stored total is what the committed jobs say, less the loss |
| `LockedLedger.DeleteUndoesIndex` | services/blockchain-indexer/shared/indexer/blockchainIndex.js:301-320 | deleting a block after indexing it restores every total |
| `LockedLedger.BlockMovesTotal` | services/blockchain-indexer/shared/indexer/blockchainIndex.js:205-219 | indexing a block raises a total by what its events lock and lowers it by what they unlock, and deleting it does the opposite |
| `LockedLedger.UnlockUndoesLock` | services/blockchain-indexer/shared/indexer/blockchainIndex.js:205-219 | locking an amount raises its total by it, and unlocking it again leaves every total |
| `LockedLedger.TwoBlocksInOneJobLoseOne` | services/blockchain-indexer/shared/indexer/blockchainIndex.js:264-320 | a concrete deletion of two blocks in one job loses the first block's change |
| `MetadataIndex.TokenRows` | services/blockchain-app-registry/shared/metadataIndex.js:57-77 | the upserted token rows have exactly the keys that a deletion of the same list removes, and the lower-case chain ID |
| `MetadataIndex.IndexedContents` | services/blockchain-app-registry/shared/metadataIndex.js:57-134 | said of the files: app.json sets the row of its chain with its chain ID, default flag and directory; a token list sets one row per local ID with the last such token; nothing else changes |
| `MetadataIndex.DeletedContents` | services/blockchain-app-registry/shared/metadataIndex.js:136-197 | said of the files: exactly the row of the chain, or the rows of the listed local IDs, disappear |
| `MetadataIndex.IndexAllBlockchainAppsMeta` | services/blockchain-app-registry/shared/metadataIndex.js:199-244 | indexing file by file, with failing files skipped, builds the union of the directories' contributions |
| `MetadataIndex.IndexIsLocal` | services/blockchain-app-registry/shared/metadataIndex.js:94-134 | indexing a file of one directory changes rows owned by that directory only |
| `MetadataIndex.DeleteIsLocal` | services/blockchain-app-registry/shared/metadataIndex.js:136-197 | deleting what a file contributed changes rows owned by its directory only |
| `MetadataIndex.RebuildParts` | services/blockchain-app-registry/shared/metadataIndex.js:199-244 | a rebuilt index holds for each visited directory exactly that directory's contribution, whatever the order |
| `Sorting.SortIsOrderedPermutation` | services/blockchain-app-registry/shared/utils/downloadRepository.js:218-220 | the sort returns the same elements in key order |
| `Sorting.SortIsStable` | services/blockchain-indexer/shared/dataService/business/pendingTransactions.js:134-137 | elements of one key keep their order |
| `RegistrySync.FilesOf` | services/blockchain-app-registry/shared/utils/downloadRepository.js:222-231 | a group holds exactly the metadata files of its directory |
| `RegistrySync.GroupFilesByNetworkAndApp` | services/blockchain-app-registry/shared/utils/downloadRepository.js:214-233 | there is a group for exactly the directories with a metadata file, in sorted order, and a path with fewer than three segments is an error |
| `RegistrySync.Registry.DeleteIndexedMetadataFromFile` | services/blockchain-app-registry/shared/metadataIndex.js:162-197 | with enough calls left and the local files there, exactly the rows of the local copies are deleted from the open transaction; otherwise it fails |
| `RegistrySync.Registry.IndexMetadataFromFile` | services/blockchain-app-registry/shared/metadataIndex.js:94-134 | with enough calls left and the files there, exactly the rows of the file are upserted into the open transaction, read with the downloaded app.json first; otherwise it fails |
| `RegistrySync.Registry.ProcessAppFiles` | services/blockchain-app-registry/shared/utils/downloadRepository.js:296-334 | the sequential loop succeeds exactly with enough calls and no missing file, and then the transaction holds the specified tables and the lists of files to remove and to move are exact |
| `RegistrySync.Registry.ProcessChanges` | services/blockchain-app-registry/shared/utils/downloadRepository.js:278-340 | all groups in the given order succeed exactly with enough calls, no short path and no missing file, and leave the specified tables in the open transaction |
| `RegistrySync.Registry.RemoveFiles` | services/blockchain-app-registry/shared/utils/downloadRepository.js:345-350 | exactly the listed files that can be removed disappear, and the others stay without an error |
| `RegistrySync.Registry.MoveFiles` | services/blockchain-app-registry/shared/utils/downloadRepository.js:352-361 | a prefix of the listed files takes the downloaded content, all of them exactly when no call fails |
| `RegistrySync.Registry.SyncWithRemoteRepo` | services/blockchain-app-registry/shared/utils/downloadRepository.js:249-378 | whichever awaited call fails before the commit, tables, commit hash and local files are unchanged and the transaction is rolled back; a commit happens exactly when none of them fails, makes tables and hash durable together, and leaves each local file old, removed or downloaded |
| `IncrementalRebuild.GroupIsAppDiff` | services/blockchain-app-registry/shared/utils/downloadRepository.js:214-233 | sorting and grouping a diff gives each directory app.json and then nativetokens.json, each exactly when the diff lists it |
| `IncrementalRebuild.ProcessAppResult` | services/blockchain-app-registry/shared/utils/downloadRepository.js:294-334 | on any tables and any local copies, one directory succeeds exactly when the files it reads are there, and then changes only the rows stated |
| `IncrementalRebuild.AppExact` | services/blockchain-app-registry/shared/utils/downloadRepository.js:294-334 | one directory ends with what a rebuild takes from it if and only if its change fits, for any local copies, any listed files and any supported networks |
| `IncrementalRebuild.FreshFitsIff` | services/blockchain-app-registry/shared/metadataIndex.js:162-197 | with local copies as fresh as the tables the guard comes down to: an unlisted token list needs an unchanged chain, and a listed one an app.json to be read with |
| `IncrementalRebuild.ProcessAllParts` | services/blockchain-app-registry/shared/utils/downloadRepository.js:284-340 | in any order, all groups succeed exactly when each does on its own rows, and each then holds its own result |
| `IncrementalRebuild.SyncEqualsRebuildIff` | services/blockchain-app-registry/shared/utils/downloadRepository.js:249-361 | from the index of one repository state and any local copies, a sync by diff succeeds if and only if the files it reads are there, and yields the index of the new state if and only if every directory's change fits |
| `IndexContents.RebuildDescribes` | services/blockchain-app-registry/shared/metadataIndex.js:199-244 | a rebuilt index has exactly the rows that the files of the supported networks describe, with the values of the files |
| `IndexContents.SyncedTablesDescribeIff` | services/blockchain-app-registry/shared/utils/downloadRepository.js:249-361 | a sync leaves exactly the rows that the new repository state describes if and only if every directory's change fits |
| `IncrementalRebuild.FilesFollow` | services/blockchain-app-registry/shared/utils/downloadRepository.js:345-361 | from fresh local copies, the complete removals and moves give the new repository's folders |
| `IncrementalRebuild.AttemptCurrentIff` | services/blockchain-app-registry/shared/utils/downloadRepository.js:249-378 | one attempt keeps the tables the index of the state the stored hash names if and only if it meets its guard |
| `IncrementalRebuild.EverySyncEqualsRebuildIff` | services/blockchain-app-registry/shared/utils/downloadRepository.js:249-378 | over any run of aborted, refused and committed syncs, with any part of the file removals and moves done, the tables are always the index of the state last synced if and only if every attempt met its guard |
| `IncrementalRebuild.RenamedChainLeavesTokens` | services/blockchain-app-registry/shared/metadataIndex.js:179-195 | a chain rename in app.json alone does not yield the index of the new repository |
| `IncrementalRebuild.UnsupportedNetworkIsIndexed` | services/blockchain-app-registry/shared/metadataIndex.js:199-206 | a sync indexes an app that a rebuild over the supported networks does not |
| `IncrementalRebuild.FailedMoveLeavesTokens` | services/blockchain-app-registry/shared/utils/downloadRepository.js:352-361 | after a commit whose move failed, the next sync leaves the tokens committed in between |
| `ByteWindow.CreditTransaction` | services/fee-estimator/shared/utils/dynamicFeesLIP.js:73-88 | the three conditions together add the priority times the credited weight |
| `ByteWindow.CalculateAvgFeePerByte` | services/fee-estimator/shared/utils/dynamicFeesLIP.js:59-93 | the loop returns the weighted priority sum over the window's width |
| `ByteWindow.CreditBound` | services/fee-estimator/shared/utils/dynamicFeesLIP.js:72-89 | the credited weight never exceeds three times the window's width |
| `ByteWindow.CreditBoundIsTight` | services/fee-estimator/shared/utils/dynamicFeesLIP.js:72-89 | some blocks attain that bound |
| `ByteWindow.CreditIsWindowPlusTwoIff` | services/fee-estimator/shared/utils/dynamicFeesLIP.js:72-89 | for a block past the window, the weight is upper - lower + 2 if and only if no boundary falls on lower and exactly one of a boundary on upper and one strictly inside exists |
| `ByteWindow.UniformPriority` | services/fee-estimator/shared/utils/dynamicFeesLIP.js:72-89 | transactions of one priority contribute that priority once per unit of credited weight |
| `ByteWindow.AverageBound` | services/fee-estimator/shared/utils/dynamicFeesLIP.js:91-92 | for non-negative priorities the average lies between zero and three times the largest |
| `BlockFees.CalculateBlockSize` | services/fee-estimator/shared/utils/dynamicFeesLIP.js:53-57 | the loop sums the transaction sizes |
| `BlockFees.CalculateFeePerByte` | services/fee-estimator/shared/utils/dynamicFeesLIP.js:119-136 | low, medium and high fee are computed from the sorted priorities as specified |
| `BlockFees.FeesOfBlock` | services/fee-estimator/shared/utils/dynamicFeesLIP.js:59-136 | the medium fee is the average over bytes 3840 to 11520, the high fee the larger of that over 12288 to 15360 and 1.3 times the medium one plus one, the low fee zero below 12.5 KiB |
| `BlockFees.LowFeeIsSmallestPriority` | services/fee-estimator/shared/utils/dynamicFeesLIP.js:126-130 | for a full block the first sorted transaction exists and the low fee is the smallest priority |
| `BlockFees.BlockFeesOrdered` | services/fee-estimator/shared/utils/dynamicFeesLIP.js:130-133 | with fees at least the minimum, all fees are non-negative and the high fee is at least 1.3 times the medium one plus one |
| `BlockFees.CalculateWeightedAvg` | services/fee-estimator/shared/utils/dynamicFeesLIP.js:95-117 | the reduce returns the decayed weighted average of the block sizes |
| `BlockFees.WeightedAvgDecays` | services/fee-estimator/shared/utils/dynamicFeesLIP.js:95-117 | the size of the i-th newest block weighs the decay factor to the power of i |
| `BlockFees.WeightedAvgBetween` | services/fee-estimator/shared/utils/dynamicFeesLIP.js:95-117 | the average lies between the smallest and the largest block size |
| `BlockFees.GetEstimateFeePerByteForBlock` | services/fee-estimator/shared/utils/dynamicFeesLIP.js:138-161 | a step smooths or resets by the average size and the newest block's size |
| `BlockFees.StepMovesByAlpha` | services/fee-estimator/shared/utils/dynamicFeesLIP.js:29-51 | a busy step moves each estimate towards the newest block's fee by the share alpha of their distance, and any other step resets it |
| `BlockFees.BusyBlocksSmooth` | services/fee-estimator/shared/utils/dynamicFeesLIP.js:144-149 | with large blocks each fee moves to a value between its previous estimate and the newest block's fee |
| `BlockFees.QuietBlocksReset` | services/fee-estimator/shared/utils/dynamicFeesLIP.js:150-154 | when no block of the batch exceeds 12.5 KiB the estimate is reset |
| `BlockFees.EstimateKeepsOrder` | services/fee-estimator/shared/utils/dynamicFeesLIP.js:29-51 | smoothing and resetting keep fees non-negative and the high fee at least 1.3 times the medium one |
| `FeeBatch.StartHeight` | services/fee-estimator/shared/utils/dynamicFees.js:45-48 | the start is the largest of the configured start, genesis plus one and the requested height |
| `FeeBatch.StartingPoint` | services/fee-estimator/shared/utils/dynamicFees.js:50-57 | the starting point is never below the height before the start |
| `FeeBatch.BatchWindow` | services/fee-estimator/shared/utils/dynamicFees.js:64-81 | a height is requested if and only if it is among the newest ones above genesis, each once and newest first, and there is at least one |
| `FeeBatch.BatchIsNewest` | services/fee-estimator/shared/utils/dynamicFees.js:64-81 | the batch is the newest blocks above genesis, as many as the batch size allows, each once and newest first |
| `FeeBatch.TurnsTakeNewestBlocks` | services/fee-estimator/shared/utils/dynamicFees.js:62-86 | every turn of a run is the per-block estimate over these blocks |
| `FeeBatch.RequestsInWindow` | services/fee-estimator/shared/utils/dynamicFees.js:62-92 | every requested height of a run lies above genesis and no higher than the final height |
| `FeeBatch.RunTurns` | services/fee-estimator/shared/utils/dynamicFees.js:62-95 | the loop climbs one height a turn, ends exactly at the final height, and caches every estimate on the way |
| `FeeBatch.GetEstimateFeePerByteForBatch` | services/fee-estimator/shared/utils/dynamicFees.js:41-100 | a run that is not cut short returns the starting point moved on to the final height, and any run leaves the estimate it reached under its own key and no other |
| `FeeBatch.ResumeEqualsRecompute` | services/fee-estimator/shared/utils/dynamicFees.js:55-92 | from any correct point, further turns give exactly what the uninterrupted recursion has at that height |
| `FeeBatch.RunsKeepCacheCorrect` | services/fee-estimator/shared/utils/dynamicFees.js:83-95 | from a correct cache a run returns the uninterrupted estimate and leaves a correct resume point after any number of turns |
| `FeeBatch.EveryCallResumesCorrectly` | services/fee-estimator/shared/utils/dynamicFees.js:41-100 | over any sequence of calls in either mode, from any starts and each cut short anywhere, the cache is a correct resume point and the next call returns an uninterrupted recursion |
| `FeeBatch.OwnOrigin` | services/fee-estimator/shared/utils/dynamicFees.js:50-57 | that recursion begins at the call's own start in the quick mode, and in the full mode when the start never moves |
| `FeeBatch.EstimatesStayInOrder` | services/fee-estimator/shared/utils/dynamicFeesLIP.js:138-154 | every estimate of every run has non-negative fees and a high fee of at least 1.3 times the medium one |
| `FeeBatch.EqualFeesConverge` | services/fee-estimator/shared/utils/dynamicFeesLIP.js:29-51 | over k busy turns of equal fees the share (1 - alpha)^k of the distance to these fees is left |
| `Text.DecimalRoundTripIff` | services/blockchain-connector/shared/utils/parser.js:50-50 | parsing and printing a decimal text gives it back if and only if it is canonical |
| `Text.ParseDecimalIff` | services/blockchain-connector/shared/utils/parser.js:50-50 | parsing accepts exactly the decimal texts, with sign and leading zeros, and gives the number they denote |
| `Text.HexRoundTripIff` | services/blockchain-connector/shared/utils/parser.js:47-47 | decoding and encoding a hexadecimal text gives it back if and only if it is lower-case and of even length |
| `Text.FromHexIff` | services/blockchain-connector/shared/utils/parser.js:47-47 | decoding gives exactly the bytes whose text is the longest hexadecimal prefix in lower case |
| `SchemaParser.PrintIdempotent` | services/blockchain-connector/shared/utils/parser.js:18-35 | the printer is idempotent on every value |
| `SchemaParser.LeafRoundTripIff` | services/blockchain-connector/shared/utils/parser.js:40-52 | a primitive JSON input survives parsing and printing if and only if it is in its data type's canonical form |
| `SchemaParser.LeafDenotesIff` | services/blockchain-connector/shared/utils/parser.js:40-53 | a primitive value is accepted with a result if and only if the result is what it denotes under its data type, lisk32 addresses, numbers and either case of hexadecimal included |
| `SchemaParser.RoundTripIff` | services/blockchain-connector/shared/utils/parser.js:18-75 | at any depth a JSON input parses and prints back to itself if and only if it is canonical for its schema |
| `SchemaParser.ParseIffDenotes` | services/blockchain-connector/shared/utils/parser.js:37-75 | at any depth the parser accepts an input with a result if and only if the result is what the input denotes under its schema |
| `SchemaParser.ZeroInArrayIsLost` | services/blockchain-connector/shared/utils/parser.js:19-24 | a zero 64-bit number inside an array stays a bigint |
| `KeyValueStore.StoreRoundTripIff` | services/blockchain-indexer/shared/database/mysqlKVStore.js:32-65 | reading back a stored value gives it unchanged if and only if it is not `false` |
| `KeyValueStore.StoredText` | services/blockchain-indexer/shared/database/mysqlKVStore.js:31-42 | a row holds the text of its value with its type, a number in canonical decimal form |
| `KeyValueStore.ReadNumberIff` | services/blockchain-indexer/shared/database/mysqlKVStore.js:44-54 | a number is read exactly as the one its text denotes |
| `ExportCache.RequestAll` | services/export/shared/requestAll.js:19-51 | for any page size and cap the page loop returns all entries up to the cap, and the cap rounded up to whole pages beyond it |
| `ExportCache.CollectedExamples` | services/export/shared/requestAll.js:19-33 | the defaults are pages of 100 and a cap of 1000, and a page is fetched whole |
| `ExportCache.ExportService.ExportTransactions` | services/export/shared/csvExport.js:203-244 | the day loop exports the specified transactions and leaves the specified caches |
| `ExportCache.ExportIsTransparent` | services/export/shared/csvExport.js:213-244 | over agreeing caches an export equals the uncached concatenation of the per-day fetches |
| `ExportCache.ExportDeliversHistories` | services/export/shared/csvExport.js:213-244 | over agreeing caches, and with at most 10000 transactions a day, an export is the histories of its days one after the other |
| `ExportCache.LongDayIsCut` | services/export/shared/csvExport.js:224-231 | of a longer day at least the first 10000 transactions are fetched, and nothing that is not its prefix |
| `ExportCache.CachedDays` | services/export/shared/csvExport.js:233-241 | an export caches exactly the days of its range other than today |
| `ExportCache.ExportKeepsTransparentIff` | services/export/shared/csvExport.js:233-241 | an export leaves the caches with past days only if and only if it ends no later than today |
| `ExportCache.GuardedOutputsExact` | services/export/shared/csvExport.js:203-244 | over any interleaving of new transactions, day changes, purges and exports that end by their day, every export equals the uncached concatenation of per-day fetches |
| `ExportCache.SafeIff` | services/export/shared/csvExport.js:213-241 | no later guarded run delivers a wrong export if and only if each cached entry is for a past day and agrees with its fetch |
| `ExportCache.CachesSafeIff` | services/export/shared/csvExport.js:203-244 | over any run the caches are safe in every state if and only if no export ended after its day |
| `ExportCache.FutureDayIsLost` | services/export/shared/csvExport.js:233-240 | a concrete export into a future day hides that day's later transactions |
| `EventRetention.GetEventsInfoToIndex` | services/blockchain-indexer/shared/utils/events.js:44-81 | each event yields one row, with its text exactly when the block is not final, and one row per topic |
| `EventRetention.TopicsAreAll` | services/blockchain-indexer/shared/utils/events.js:67-77 | the topic rows are one for each topic of each event and no other |
| `EventRetention.EventStore.IndexEvents` | services/blockchain-indexer/shared/indexer/blockchainIndex.js:168-174 | the rows are upserted and an absent text leaves a stored one in place |
| `EventRetention.EventStore.DeleteEventStrTillFinalizedHeight` | services/blockchain-indexer/shared/utils/events.js:83-110 | whichever database call fails nothing has changed; the retention law is kept either way; after a success exactly the texts above the finalized height are left |
| `EventRetention.DeletionRange` | services/blockchain-indexer/shared/utils/events.js:83-99 | in any state exactly the texts above the last deletion's height, or from genesis, up to the finalized height are cleared |
| `EventRetention.TornDeletionRetainedIff` | services/blockchain-indexer/shared/utils/events.js:96-102 | the deletion alone keeps the law, the watermark alone only when no text is left below it, so the two need one transaction |
| `EventRetention.StepRetainedIff` | services/blockchain-indexer/shared/utils/events.js:50-110 | a step keeps the two-sided retention law if and only if it meets its guard |
| `EventRetention.AtomicIndexingIsGuarded` | services/blockchain-indexer/shared/dataService/business/blocks.js:78-78 | indexing with the finality of the moment meets the guard |
| `EventRetention.RetainedIff` | services/blockchain-indexer/shared/utils/events.js:50-110 | over every run events above finality keep their own text and those up to the watermark have none, if and only if every indexing step met its guard |
| `GenesisAssets.RequestAll` | services/blockchain-indexer/shared/utils/requestAll.js:18-69 | the page loop merges page after page, lists by appending, objects by extending and anything else by its latest value, ends at an empty answer and fails on what cannot be spread |
| `GenesisAssets.PagedEqualsWhole` | services/blockchain-connector/shared/sdk/genesisBlock.js:93-134 | fetching a sub-store by pages of any size rebuilds it exactly |
| `GenesisAssets.PagedIsPrefix` | services/blockchain-indexer/shared/utils/requestAll.js:18-69 | for any page size and amount the pages give the first entries of a sub-store, exactly as many as are asked for and there |
| `GenesisAssets.PagedListIsPrefix` | services/blockchain-indexer/shared/utils/requestAll.js:45-49 | the same holds of a source that answers with lists, where an empty page ends the loop |
| `GenesisAssets.SpreadsByIndex` | services/blockchain-indexer/shared/utils/requestAll.js:58-59 | a list spread into an object gives one entry per index |
| `GenesisAssets.IndexTokenModuleAssets` | services/blockchain-indexer/shared/indexer/genesisBlock.js:35-65 | for any page size the change map holds each token's locked sum over the whole sub-store |
| `GenesisAssets.LockedIsSumOfAll` | services/blockchain-indexer/shared/indexer/genesisBlock.js:52-62 | a token's locked sum is that of all locked balances of all users in the token |
| `GenesisAssets.IndexPosModuleAssets` | services/blockchain-indexer/shared/indexer/genesisBlock.js:67-100 | for any page size the two sums are the staked and self-staked amounts of the whole sub-store |
| `GenesisAssets.StakedIsSumOfAll` | services/blockchain-indexer/shared/indexer/genesisBlock.js:87-97 | the staked sum is that of all stakes, the self-staked one that of all stakes to oneself |
| `TransactionPaging.PendingIsWindow` | services/blockchain-indexer/shared/dataService/business/pendingTransactions.js:101-151 | a pending page is a slice of the matching transactions in sort order, and its total counts them all |
| `TransactionPaging.MergeTransactions` | services/blockchain-indexer/shared/dataService/transactions.js:46-89 | data, count, offset and summed total of the merged page, and the error when nothing can be shown |
| `TransactionPaging.MergedIsPrefix` | services/blockchain-indexer/shared/dataService/transactions.js:61-82 | the merged page is a prefix of that window of pending followed by confirmed |
| `TransactionPaging.MergedPageLength` | services/blockchain-indexer/shared/dataService/transactions.js:61-82 | the lengths of the merged page and of its window, from the two list sizes, the offset and the limit alone |
| `TransactionPaging.MergedIsWindowIff` | services/blockchain-indexer/shared/dataService/transactions.js:61-82 | it is the full window if and only if the pending ones fill it or the adjusted limit covers the rest |
| `TransactionPaging.FirstPageIsWindow` | services/blockchain-indexer/shared/dataService/transactions.js:61-82 | it is the full window for offset zero or without pending transactions |
| `TransactionPaging.LaterPageIsShort` | services/blockchain-indexer/shared/dataService/transactions.js:65-69 | a concrete later page has fewer entries than its window |
| `TransactionStatistics.BucketsAreExact` | services/transaction-statistics/shared/buildTransactionStatistics.js:51-114 | each bucket counts and sums exactly the transactions that belong to it |
| `TransactionStatistics.BucketsNameTokens` | services/transaction-statistics/shared/buildTransactionStatistics.js:98-114 | a bucket names the token of its last transaction, and `na` when it has none |
| `TransactionStatistics.RowsHoldBuckets` | services/transaction-statistics/shared/buildTransactionStatistics.js:98-130 | each row of a day holds the count, the value and the last token of exactly the transactions of its bucket |
| `TransactionStatistics.DayIsConserved` | services/transaction-statistics/shared/buildTransactionStatistics.js:98-130 | the rows of a day count every transaction once, overall and per module command, and their volumes sum to the total value |
| `TransactionStatistics.VolumeIsFeesAndAmounts` | services/transaction-statistics/shared/buildTransactionStatistics.js:62-74 | the volumes of a day's rows sum to all its fees plus all its amounts |
| `TransactionStatistics.EveryDayHasRow` | services/transaction-statistics/shared/buildTransactionStatistics.js:85-96 | every day has the zero bucket under `any` |
| `TransactionStatistics.GetDistributionByType` | services/transaction-statistics/shared/transactionStatistics.js:151-170 | the distribution is the sum of the selected rows' counts per module command, without zero entries |
| `TransactionStatistics.SelectionIsNewest` | services/transaction-statistics/shared/transactionStatistics.js:46-64 | a selection cut by the row limit has the newest rows of the range |
| `TransactionStatistics.FreshIsLatest` | services/transaction-statistics/shared/buildTransactionStatistics.js:132-160 | after any days have been stored any number of times, the rows whose bucket the last store of their day has are exactly that store's rows |
| `TransactionStatistics.TableIdsDistinct` | services/transaction-statistics/shared/buildTransactionStatistics.js:98-130 | the stored rows never hold one primary key twice |
| `TransactionStatistics.DistributionIsExactIff` | services/transaction-statistics/shared/transactionStatistics.js:43-64 | over any stores, below the row limit, the distribution is the transactions of each day's last store if and only if no left-over row counts any |
| `TransactionStatistics.GrowingDaysAreFresh` | services/transaction-statistics/shared/buildTransactionStatistics.js:221-221 | storing a day again as it grows leaves no row over |
| `TransactionStatistics.VanishedBucketStays` | services/transaction-statistics/shared/buildTransactionStatistics.js:136-143 | a bucket that vanishes when its day is stored again is still counted |

## Left out

- Queues, Redis, the database driver, the file system, GitHub, S3 and remote calls: they are maps, sets, sequences and failure parameters.
- Fork handling across the separate index, update and delete queues, and deletion of the rows of the blocks table: jobs run one at a time and the run laws of the index take a removal as a step.
- `applyTransaction` and `revertTransaction`, validator counters, commissions and rewards: no effect on the modelled state.
- Several processes writing at once: the coordinator, the ledger and the caches have one writer.
- The order of rows the gap query returns: rows are listed by ascending height, which no law other than `GapQuery.MissingBlocksAscend` uses.
- `range` with a step other than one: no caller passes one.
- Metadata files nested deeper than network/app/file, files whose name merely ends in `app.json` or `nativetokens.json`, malformed JSON, and diff entries reported as renamed or copied.
- IncrementalRebuild.SyncEqualsRebuildIff: assumes that no two directories of a network carry the same chain name in the indexed, local or new files, and that `networkType` is the directory's network, because both are what makes a row belong to one directory.
- The event payload that announces updated apps after a sync, and a temporary directory that an earlier failed removal left filled.
- Interleaving of single statements of two app groups inside one sync: groups run whole, in any order.
- FeeBatch.GetEstimateFeePerByteForBatch: does not model the mutual exclusion of runs, because the flag object is frozen and never engages, nor a chain that changes between two calls.
- Rounding of floating-point numbers and of the smoothing factor: any factor from zero to one is covered.
- SchemaParser.RoundTripIff: values are compared by content, so rewriting in place of objects that are shared is not captured; `BigInt` on padded or non-decimal text, fractional numbers, and an array given where the schema says object are not modelled as JavaScript treats them.
- EventRetention.RetainedIff: persistence of all event texts is switched off, because with it nothing is deleted.
- A day change in the middle of an export, an interval that ends before it starts (the date library decides which days it has), CSV formatting, self-transfer duplication and reuse of finished CSV files.
- The row limit of the statistics selection when it is exceeded.
- Gateway routing, parameter validation, market prices, peers, status endpoints and configuration: plumbing that would only add easy members.
