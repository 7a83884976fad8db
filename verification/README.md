# Filter protocol, shared storage, query execution, schema paths and codecs

A Dafny model of the parts of the VGI worker library that hold its hardest logic. It follows the Python
code branch by branch; where the code and its documentation differ, the code is modelled and the difference is
proved. Source paths below are relative to the repository root.

* **Filter Encoding v2** (`Filter*.dfy`). Documents are JSON trees; `Elaborate` says which expression a tree
  means, and the parser, with its depth bound and its one node counter, is proved to accept exactly the meaningful
  expressions within both limits. Apart from the parser every expression is written out as a document, member by
  member (`DocumentOf`), and reading is proved to be the inverse; snapshots and deltas likewise. `ApplyDelta` is the effect of a delta on the predicates and the revision map.
  Runs of deltas keep an invariant, converge in any order, and can be replayed, also from the compacted history
  that an HTTP cursor carries. The traversals that build the evaluation relations are proved to bind what the
  rendered SQL mentions. The engine is a function giving a truth value per row or an error.
* **Shared storage** (`Storage*.dfy`, `Shard*.dfy`, `Azure*.dfy`, `Cf*.dfy`). `Storage.Step` is the
  store as tables: key-value rows, an append log, a FIFO queue and counters. The SQLite class implements it; the
  sharding wrapper and the Azure tables with tombstones and attempt ids are proved to refine it; the Azure retry,
  the HTTP paging loops and the HTTP retry are proved for every placement of a failure and every cut into pages.
  Each operation is atomic, as one statement or transaction is; workers interleave as sequences of operations.
* **Catalog-query executor** (`Query*.dfy`): tickets bound to their owner, a resource-owning stream, and the service
  that prepares, releases and starts queries for any callers at once. What the provider and the ticket checks answer
  is a parameter of each call, and a trace records what the executor does.
* **Column paths** (`ColumnPath.dfy`): lookup, edit and flattening of schema trees, and the migration of
  dotted names.
* **Codecs** (`Bytes.dfy`, `Base64Url.dfy`, `AttachTicket.dfy`, `Decimal.dfy`, `Arguments.dfy`). The AEAD is an
  abstract seal/open pair with a correctness assumption, the clock a parameter.

Expected failures are `None` or an error value: the library raises one exception class for each of these
families, and the model keeps which inputs are refused, not the message.

## Where the code does less than it says

Each of these is proved as an exact condition, with an input or a family of inputs on which it fails.

* The history compaction of `vgi/protocol.py:2253-2289` is documented to reproduce the filters. A stale update is
  never validated on arrival (`vgi/filter_v2.py:716-719`); once compaction removes the delta that made it stale,
  replay meets it as applicable. `CompactedHistoryReplaysExactly` says exactly when replay succeeds,
  `StaleUpdateBreaksReplay` how it fails from any snapshot.
* A key batch used only inside the tested expression of an external IN is never registered, and one column index
  under two names is ambiguous (`EvaluationIsClosed`; `NestedKeyBatchIsUnbound`, `TwoNamesAreUnbound`). The
  connection is kept per thread and context, so the unregistered name may stand for the keys of an earlier evaluation,
  of another scan even (`ClosedOnUsedConnection`; `EarlierKeysAreRead`).
* A retried `state_counter_add` counts twice when another worker adds in between, and a retried
  `state_drain` loses the old value of a key written in between (`OnceExactlyWhenStillLanded`;
  `InterferingAddCountsTwice`, `RewrittenKeyIsLostFromDrain`).
* Azure `state_delete` and `execution_clear` count tombstones, and after a lost commit the repeated call counts what
  is left rather than what it removed (`CountIsThePlainStoresExactlyWhen`; `DrainedRowIsCounted` answers 1 for 0,
  `LostClearIsNotCounted` 0 for 1).
* A scan or a drain of the HTTP client ends early exactly when the empty key is alone on its first page: its cursor
  is the empty text, which the loop takes for the end. The rest of a drained namespace is then tombstoned and
  never yielded (`ScanIsCompleteExactly`, `DrainIsCompleteExactly`; `StalledDrainLosesTheRest`,
  `EmptyKeyDrainLosesRows`).
* A call of the query executor that fails with its ticket open does not call `close` when the worker has no
  provider any more (`FailureClosesExactlyWithProvider`, `NoProviderNoClose`).
* A dotted legacy name can be accepted although its path does not resolve, when a path above it is listed more than
  once (`LegacyNameResolvesExactly`, `RepeatedSiblingBreaksLegacy`).

## Model

| member | source | states |
|---|---|---|
| FilterParser.Parser.Expression | vgi/filter_v2.py:826-998 | the recursive parser accepts exactly the trees that mean an expression within depth 64 and 10,000 nodes, and its counter grows by exactly the size of what it returns; which tree means which expression is `FilterDocument.ElaboratedExactly` |
| FilterParser.Parser.PredicateEntry | vgi/filter_v2.py:748-803 | a predicate entry is accepted exactly when it elaborates and the document has nodes left for it; what is returned is sound |
| FilterParser.ElaboratedIsWellTyped | vgi/filter_v2.py:826-998 | every accepted tree is well typed: boolean operands under and/or/not, struct parents with the field named at that index, bounded arguments, runtime filters only at a root |
| FilterParser.ElaboratedPredicateIsSound | vgi/filter_v2.py:748-803 | an accepted predicate has a BOOLEAN or runtime root within both limits, and a runtime filter is advisory |
| FilterDocument.ElaboratedExactly | vgi/filter_v2.py:826-998 | a tree is read as an expression if and only if it spells it (its own document, node kind, operator, flag and operand order included, but for options that say nothing), every node refers to what the scan and the payload row hold, and the expression is well typed |
| FilterDocument.RoundTrip | vgi/filter_v2.py:826-998 | every well-typed expression is read back from its own document if and only if its references are there |
| FilterDocument.OneMeaning | vgi/filter_v2.py:826-998 | no tree spells two expressions of one scan and row |
| FilterDocument.PredicateExactly | vgi/filter_v2.py:748-782 | a predicate's document is taken for exactly the predicate it spells, mode and source included, if and only if scan, row, context and bind check admit it |
| FilterDocument.SessionExactly | vgi/filter_v2.py:1016-1055 | an expression needs session settings if and only if some node divides, takes a remainder or casts between text, date and time types |
| FilterDocument.KnownExtensionsExactly | vgi/filter_v2.py:500-517 | a field is accepted if and only if every extension named in it or in the struct and list fields inside it is one of the ten known ones |
| FilterMessages.SnapshotExactly | vgi/filter_v2.py:648-674 | a snapshot is accepted if and only if it spells admissible predicates of revision 0 with distinct ids within the limits, and it installs exactly them in order |
| FilterMessages.UpdateExactly | vgi/filter_v2.py:684-709 | an update is read if and only if its members spell a removal or an advisory upsert, and as that one |
| FilterMessages.AcceptedIsDelivered | vgi/filter_v2.py:676-722 | every accepted delta spells updates of distinct ids, none required, of which those that apply validate, within the limits |
| FilterMessages.DeliveredIsApplied | vgi/filter_v2.py:676-740 | and every such delta is accepted and leaves exactly this: predicates that stay or are replaced in their old places, new ones behind them in update order, and the revision of each update that applied |
| FilterMessages.CommittedInOrder | vgi/filter_v2.py:723-740 | committing patches one by one keeps every survivor in its place and puts newcomers last in order |
| FilterDelta.ReadUpdates | vgi/filter_v2.py:676-719 | the first phase reads all updates or fails as a whole, skipping stale ones, with the counter at the total size of what was parsed |
| FilterDelta.CommitPatches | vgi/filter_v2.py:723-740 | the second phase installs and removes patches in order, a replacement keeping its place |
| FilterDelta.ParseDelta | vgi/filter_v2.py:676-740 | the two-phase parser is the declarative effect of a delta, rejection included |
| FilterSnapshot.ParseSnapshot | vgi/filter_v2.py:648-674 | the snapshot parser is the declarative effect of a snapshot: bounds, distinct ids and revision 0 |
| FilterRuns.InstallAt | vgi/filter_v2.py:723-740 | installing or removing one predicate changes what is live at its id and nowhere else |
| FilterRuns.CommitAt | vgi/filter_v2.py:723-740 | committing patches with distinct ids leaves at each id what its one patch says |
| FilterRuns.StepAt | vgi/filter_v2.py:676-740 | after an accepted delta each id holds its applicable update, or what it held before |
| FilterRuns.SnapshotEstablishesInv | vgi/filter_v2.py:648-674 | an accepted snapshot has distinct sound predicates at revision 0, all recorded |
| FilterRuns.StepKeepsInv | vgi/filter_v2.py:676-740 | an accepted delta keeps the invariant, every required predicate, and every recorded revision from falling |
| FilterRuns.RunKeepsInv | vgi/filter_v2.py:402-412 | over any deltas, accepted or rejected: required predicates are the first ones and live at revision 0, live revisions are the recorded ones, revisions never fall, at most 4096 ids are recorded |
| FilterRuns.ReplayedSnapshot | vgi/filter_v2.py:75-97 | re-reading an accepted snapshot with the bind check skipped gives the same state |
| FilterRuns.ReplayedDelta | vgi/filter_v2.py:764-775 | re-reading an accepted delta with the bind check skipped gives the same state |
| FilterRuns.ReplayRebuildsRun | vgi/filter_v2.py:75-97 | replaying exactly the accepted deltas of any run rebuilds the state of the run |
| FilterConvergence.StepIsNewer | vgi/filter_v2.py:716-740 | at each id an accepted delta keeps the newer of what is there and what it offers, tombstones included |
| FilterConvergence.AcceptedExactlyWhen | vgi/filter_v2.py:676-740 | a delta whose updates validate is accepted exactly when its header and context fit, it targets no required id and the id limit leaves room |
| FilterConvergence.RunAcceptedExactlyWhen | vgi/filter_v2.py:676-740 | a sequence of such deltas is accepted as a whole exactly when each fits and all their ids together stay within the limit, which does not depend on the order |
| FilterConvergence.FoldIsGreatest | vgi/filter_v2.py:716-719 | keeping the newer offer one after the other ends at an offer of greatest revision |
| FilterConvergence.GreatestIsUnique | vgi/filter_v2.py:716-719 | when one (id, revision) always means one update there is only one greatest |
| FilterConvergence.SameAtEveryId | vgi/filter_v2.py:387-400 | states that agree at every id have the same revision map and live predicates |
| FilterConvergence.Convergence | vgi/filter_v2.py:676-740 | two orders of the same valid deltas, with repeats, are accepted or rejected alike and end with the same revisions and live predicates: at each id the greatest revision, a removal staying a tombstone |
| FilterHistory.RecordFilterDelta | vgi/protocol.py:2253-2289 | the recording loop keeps exactly the deltas that are first to carry a current revision, with the live order |
| FilterHistory.HistoryIsNoLongerThanRevisions | vgi/protocol.py:2264-2270 | a cursor carries at most one delta per recorded id |
| FilterHistory.StepTakes | vgi/filter_v2.py:716-740 | an accepted delta installs at each id what it offers unless its update is stale, in which case it need not validate |
| FilterHistory.SupportsAfterStep | vgi/protocol.py:2253-2289 | after each turn the compacted history still accounts for every id |
| FilterHistory.OrderRestored | vgi/table_filter_pushdown.py:1149-1175 | restoring the recorded order makes states that agree at every id equal |
| FilterReplay.RecordedIsCovered | vgi/filter_v2.py:716-740 | re-reading records an id at a revision or later exactly when the snapshot or some delta carries one, stale updates included |
| FilterReplay.ReplayedExactly | vgi/filter_v2.py:676-740 | a delta of the history is accepted again exactly when each of its updates not covered before validates and they fit the node limit |
| FilterReplay.RereadAt | vgi/protocol.py:2264-2270 | re-reading leaves at each id the snapshot's entry or the offer of the first delta that carries the newest revision |
| FilterReplay.HistoryReplaysExactly | vgi/protocol.py:2292-2311 | replaying a history that accounts for every id, then restoring the order, gives the very filters or is refused, as the condition says |
| FilterReplay.CompactedHistoryReplaysExactly | vgi/protocol.py:2253-2311 | after any number of turns the compacted history rebuilds the state that all deltas made if and only if, for each kept delta, every update covered neither by the snapshot nor by a delta kept before it validates, within the node limit; otherwise replay is refused |
| FilterReplay.CompactedHistoryIsEnough | vgi/protocol.py:2264-2270 | in particular it does when all deltas validate, as documented |
| FilterHistoryLimits.StaleUpdateBreaksReplay | vgi/protocol.py:2264-2280 | from any snapshot, for any two new ids and any revisions: three deltas are accepted, the last two are carried on, and the next turn refuses them if the stale update does not validate |
| FilterHistoryLimits.ExampleExists | vgi/filter_v2.py:676-719 | for all ids and revisions such documents exist |
| FilterEvaluation.FreshIsDistinct | vgi/filter_v2.py:1082-1110 | first-occurrence gathering keeps no key twice and only items that were there |
| FilterEvaluation.FreshCovers | vgi/filter_v2.py:1082-1110 | and loses no key |
| FilterEvaluation.ColumnCollector.Visit | vgi/filter_v2.py:1082-1110 | the traversal gathers the column references below a node once per (index, name), in order |
| FilterEvaluation.PayloadBuilder.AddPayload | vgi/filter_v2.py:1293-1334 | the traversal gathers the payload fields of literals, sets and casts once per name |
| FilterEvaluation.KeyCollector.Visit | vgi/filter_v2.py:1352-1373 | the traversal gathers key batches by index, not going into the tested expression of an external IN |
| FilterEvaluation.BuildRelations | vgi/filter_v2.py:1258-1334 | the relations registered for an evaluation are those of the three traversals, or an error for a missing or retyped column |
| FilterClosure.ElaboratedFromDocument | vgi/filter_v2.py:826-998 | every node of an accepted expression refers to the payload cell, the key batch and the schema column it names |
| FilterClosure.MissedOnlyBelowExternal | vgi/filter_v2.py:1352-1373 | the key traversal misses a node only below the tested expression of an external IN |
| FilterClosure.RelationsExactly | vgi/filter_v2.py:1258-1281 | relations are built if and only if every column reference means one column of the batch (the one at its index if that has its name, or else the only one), of the type it had |
| FilterClosure.RenderedExactly | vgi/filter_v2.py:1113-1181 | an accepted expression is rendered if and only if it is no runtime filter and every extension call has two operands |
| FilterClosure.ColumnIsBound | vgi/filter_v2.py:1264-1292 | a mentioned column is bound to the array of its own index when no index has two names |
| FilterClosure.PayloadIsBound | vgi/filter_v2.py:1293-1334 | a mentioned payload name is bound to that node's own cell |
| FilterClosure.KeysBoundExactly | vgi/filter_v2.py:1352-1373 | a key batch is bound to its own value exactly when its index is visible to the traversal |
| FilterClosure.EvaluationIsClosed | vgi/filter_v2.py:1113-1181 | everything the rendered SQL mentions is bound to its node's own value if and only if no column index goes by two names and no key batch is hidden inside the tested expression of an external IN |
| FilterClosure.SchemaGivesOneName | vgi/filter_v2.py:837-850 | with a known output schema the first condition always holds |
| FilterClosureFailures.NestedKeyBatchIsUnbound | vgi/filter_v2.py:1352-1373 | for every scan without a schema and any columns of two key batches: a whole snapshot that is accepted, whose predicate is rendered and has its relations built, and whose inner key batch is unbound |
| FilterClosureFailures.TwoNamesAreUnbound | vgi/filter_v2.py:1264-1292 | for every scan without a schema and any two columns: such a snapshot, whose predicate gives one index two names |
| FilterConnection.EvaluationThread.Evaluate | vgi/filter_v2.py:1240-1343 | one evaluation registers its key batches over those already on its context's connection, or nothing when a column is missing, and its query sees all that is registered there |
| FilterConnection.RegisteredLast | vgi/filter_v2.py:1193-1227 | after any evaluations a key batch's name stands for what the last of them on that connection to register it registered |
| FilterConnection.KeyMentionResolvesExactly | vgi/filter_v2.py:1331-1334 | after any evaluations, of any scans: a mentioned key batch is the node's own if and only if its index is visible to the traversal or was last registered as that very batch |
| FilterConnection.ClosedOnUsedConnection | vgi/filter_v2.py:1240-1343 | on a connection used before in any way, every mentioned name stands for its node's own value if and only if no column index goes by two names and each key batch the traversal misses was last registered as the scan's own |
| FilterClosureFailures.EarlierKeysAreRead | vgi/filter_v2.py:1331-1334 | for every two scans: after one evaluation for the first, an accepted predicate of the second reads the first scan's keys |
| FilterMask.Evaluate | vgi/filter_v2.py:414-429 | the mask loop raises exactly when the engine does for a required predicate; otherwise a row is TRUE if and only if every predicate of either mode that is no runtime filter and that the engine answers is TRUE there, and FALSE if and only if one of them is FALSE |
| FilterMask.MaskIsDetermined | vgi/filter_v2.py:414-429 | the mask depends only on which predicates are live, not on order or repetition |
| FilterMask.KeptRowsMeetRequired | vgi/filter_v2.py:414-436 | no kept row fails a required predicate |
| FilterMask.FewerPredicatesKeepMore | vgi/filter_v2.py:414-436 | removing an advisory predicate never removes a kept row, and one that errors changes nothing |
| Storage.InOrderSorts | vgi/function_storage.py:1238-1275 | keys are listed strictly ascending bytewise, each once |
| Storage.LessIsBytewise | vgi/function_storage.py:1238-1275 | the order of keys is the bytewise one: behind a common beginning the first key ends or has the smaller byte |
| Storage.ScanIsOrderedRange | vgi/function_storage.py:1238-1275 | a scan lists stored pairs of the half-open bytewise range in the asked bytewise direction; what it leaves out comes later and only because of the limit |
| StorageSqlite.FunctionStorageSqlite.QueuePush | vgi/function_storage.py:1133-1145 | inserting row by row appends the items to the execution's queue, in order, and to no other |
| StorageSqlite.FunctionStorageSqlite.QueuePop | vgi/function_storage.py:1147-1169 | hands out the execution's first waiting item, from its row of least id, or nothing exactly when none waits; other queues stay |
| StorageSqlite.FunctionStorageSqlite.QueueClear | vgi/function_storage.py:1171-1179 | nothing of the execution waits afterwards, other queues stay, and the count is what waited |
| StorageSqlite.FunctionStorageSqlite.StateGetMany | vgi/function_storage.py:1190-1212 | one answer per key in the order asked, the stored value or a miss, repeats included |
| StorageSqlite.FunctionStorageSqlite.StatePutMany | vgi/function_storage.py:1214-1236 | the upsert loop leaves each key its last value in the batch and every other row what it held |
| StorageSqlite.FunctionStorageSqlite.StateScan | vgi/function_storage.py:1238-1275 | stored pairs of the half-open bytewise range in strict bytewise order; what is left out comes later and only because of the limit |
| StorageSqlite.FunctionStorageSqlite.StateDrain | vgi/function_storage.py:1277-1300 | what it answers and what it leaves are together what there was, row by row |
| StorageSqlite.FunctionStorageSqlite.StateDelete | vgi/function_storage.py:1302-1345 | exactly the named keys, or the half-open bytewise range, go and are counted; keys with a range change nothing |
| StorageSqlite.FunctionStorageSqlite.ExecutionClear | vgi/function_storage.py:1347-1369 | no row, entry or counter of the scope stays, everything else and the queue do, and the count is what went from all three tables |
| StorageSqlite.FunctionStorageSqlite.StateAppend | vgi/function_storage.py:1371-1392 | one entry after all others of its key, under an ordinal above every one in use, for every cursor, and none elsewhere |
| StorageSqlite.FunctionStorageSqlite.StateLogScan | vgi/function_storage.py:1394-1420 | entries of the key after the cursor in order; what is left out comes later and only because of the limit |
| StorageSqlite.FunctionStorageSqlite.StateCounterAdd | vgi/function_storage.py:1438-1460 | moves the one counter by the amount, from zero if absent, and answers where it is |
| StorageSqlite.FunctionStorageSqlite.StateCounterGet | vgi/function_storage.py:1425-1436 | answers the counter, or zero where there is none |
| StorageSqlite.FunctionStorageSqlite.StateCounterSet | vgi/function_storage.py:1462-1482 | the one counter is the value, every other what it was |
| StorageSqlite.FunctionStorageSqlite.StateCounterDelete | vgi/function_storage.py:1484-1495 | the one counter is gone, every other what it was |
| StorageLaws.PutStores | vgi/function_storage.py:1214-1236 | after a put each key of the batch holds its last value there and every other row what it held |
| StorageLaws.DrainConserves | vgi/function_storage.py:1277-1300 | what a drain answers and what it leaves are together exactly what there was |
| StorageLaws.DeleteRemovesExactly | vgi/function_storage.py:1302-1345 | a delete removes exactly the selected rows and counts them; keys with a range change nothing |
| StorageLaws.ClearRemovesTheScope | vgi/function_storage.py:1347-1369 | a clear leaves no row, entry or counter of the scope, all of other scopes, and the whole queue |
| StorageLaws.PopObeysLaw | vgi/function_storage.py:1147-1169 | the step of a pop obeys the law of a first-in first-out queue |
| StorageLaws.ClearCounts | vgi/function_storage.py:1347-1369 | a clear counts the rows, entries and counters of the scope |
| StorageLaws.LogPageObeysLaw | vgi/function_storage.py:1394-1420 | a page of the log is ordered, of its key and cursor, and complete up to the limit |
| StorageRuns.RunIsValid | vgi/function_storage.py:1086-1114 | over every run row ids ascend and stay below the high-water marks |
| StorageRuns.QueuesAreSeparate | vgi/function_storage.py:1133-1179 | the one shared queue table behaves as a plain queue per execution under every operation |
| StorageRuns.QueueConserved | vgi/function_storage.py:1133-1179 | over every interleaving, popped items followed by waiting items are the items pushed since the last clear, in order |
| StorageRuns.PopsInIdOrder | vgi/function_storage.py:1154-1164 | over every run, clears included, an execution's jobs are handed out in strictly increasing id order, below every id still waiting |
| StorageRuns.OrdinalsIncrease | vgi/function_storage.py:1371-1392 | a later append gets a larger ordinal whatever happened in between, clears included |
| StorageRuns.CursorCuts | vgi/function_storage.py:1394-1420 | moving the cursor to a listed entry leaves exactly the entries after it |
| StorageRuns.ScrollingReadsEachEntryOnce | vgi/function_storage.py:1394-1420 | a reader paging with any limits while others write gets each entry once, in append order: what it got and what is left are the whole log of the key |
| ShardKeys.SharedRowIdsExactlyWhenMarksNest | vgi/function_storage.py:1545-1557 | two shard keys share a row id exactly when one encoded key with its separator starts with the other |
| ShardKeys.PrefixedIsInjective | vgi/function_storage.py:1545-1557 | prefixing is injective over all keys free of the separator and all ids |
| ShardKeys.SeparatorInKeyCollides | vgi/function_storage.py:1545-1557 | every key that holds the separator shares a row id with the key before it |
| ShardKeys.ResolvedIsShardKey | vgi/function_storage.py:174-200 | resolving refuses exactly when a remote backend has no 16-byte uuid, and what it gives is always free of the separator |
| ShardKeys.ResolvedKeysFollowTheUuid | vgi/function_storage.py:141-200 | two attaches get one key exactly when their leading uuids are equal |
| ShardKeys.ResolvedKeyIs | vgi/function_storage.py:141-200 | an attach of 16 bytes or more shards by `att-` and the hexadecimal of its first 16; any other is not sharded, or refused where sharding is required |
| ShardKeys.HexDigits | vgi/function_storage.py:141-172 | two lower-case hexadecimal digits per byte, the high half first |
| ShardedStorage.OwnCursorCutsAlike | vgi/function_storage.py:1636-1648 | every shared cursor, handed out or made up, cuts the shard's log where its translation cuts the private log |
| ShardedStorage.OwnCursorOfOrdinal | vgi/function_storage.py:1636-1648 | the starting cursor translates to the start and an ordinal to the private ordinal it renames |
| ShardedStorage.OwnStep | vgi/function_storage.py:1560-1680 | each operation of a shard does to its part of the shared tables, and answers, what it does on a private store |
| ShardedStorage.ForeignStep | vgi/function_storage.py:1560-1680 | an operation of another shard leaves the shard's part as it was |
| ShardedStorage.EachShardHasItsOwnStore | vgi/function_storage.py:1526-1680 | after any calls with any shard keys each shard's part is the store its own operations alone would make |
| ShardedStorage.AnswersAreTheOwnStores | vgi/function_storage.py:1526-1680 | every answer a shard gets is its private store's, log ordinals renamed in increasing order |
| AzureRetry.OnceExactlyWhenStillLanded | vgi/function_storage_azure_sql.py:481-522 | whatever other writers do after a lost commit, the repeated call changes nothing and answers as the first if and only if the trace it looks for is still there |
| AzureRetry.DrainOnce | vgi/function_storage_azure_sql.py:583-615 | for a drain: every row it took is still its tombstone and, if it took none, none is live |
| AzureRetry.UntouchedStillLanded | vgi/function_storage_azure_sql.py:704-736 | the trace is still there when nobody touches the call's rows |
| AzureRetry.ReturnedMeansOnce | vgi/function_storage_azure_sql.py:147-170 | for every placement of failures, a put, drain, append or add that returns took effect exactly once and returns that effect's value |
| AzureRetry.RaisedMeansAtMostOnce | vgi/function_storage_azure_sql.py:147-170 | one that raises took effect at most once |
| AzureRetry.InterferingAddCountsTwice | vgi/function_storage_azure_sql.py:803-842 | a lost and retried add with another worker's add in between always counts twice |
| AzureRetry.RewrittenKeyIsLostFromDrain | vgi/function_storage_azure_sql.py:583-615 | a retried drain omits the old value of a key written in between |
| AzureRetry.UntrackedCallsAreIdempotent | vgi/function_storage_azure_sql.py:617-687 | calls without an attempt id change nothing the second time, a repeated delete or clear counting nothing |
| AzureSql.RepeatsUnseen | vgi/function_storage_azure_sql.py:481-842 | a tracked call repeated at once under its attempt id changes nothing and answers alike |
| AzureSql.FunctionStorageAzureSql.PutMany | vgi/function_storage_azure_sql.py:481-520 | probe and merge loop: the live rows of a fresh batch are each key's last value, every other row as before |
| AzureSql.FunctionStorageAzureSql.Perform | vgi/function_storage_azure_sql.py:481-842 | an answered attempt did to the plain store exactly this operation, would find its trace, and lists a scanned range of live rows in bytewise order; a failed one did that too or nothing but use up identity values |
| AzureSql.FunctionStorageAzureSql.ExecuteWithRetry | vgi/function_storage_azure_sql.py:147-170 | a call returns the answer of its first attempt, or after a lost connection of its second, and else raises what the last attempt met; if nobody touches its rows between them, what returns happened exactly once with that answer and what raises at most once |
| AzureRefinement.DoRefinesStep | vgi/function_storage_azure_sql.py:433-842 | each call does to live rows, log and counters what the plain store does, and answers the same but for tombstones counted by deletes |
| AzureRefinement.CountIsExactWithoutTombstones | vgi/function_storage_azure_sql.py:617-687 | in one attempt, a delete or clear removes no tombstone exactly when none falls under it |
| AzureRefinement.UnissuedIdsAreFresh | vgi/function_storage_azure_sql.py:477-479 | an id no call has used is carried by no row |
| AzureRefinement.RunRefinesPlainRun | vgi/function_storage_azure_sql.py:433-842 | after any run without failures the live rows, log and counters are those of the plain store after the same operations, ordinals included |
| AzureFaultyRuns.SecondAttemptOnlyFinds | vgi/function_storage_azure_sql.py:147-170 | whatever attempts of other calls came between: the second attempt of a call that landed, its rows left alone since, changes nothing and gives the answer of the first |
| AzureFaultyRuns.TrackedCallsTakeEffectOnce | vgi/function_storage_azure_sql.py:147-170 | in every interleaving of attempts a call with an attempt id has one effect if any of its attempts committed, and none otherwise |
| AzureFaultyRuns.TryRunRefinesPlainRun | vgi/function_storage_azure_sql.py:433-842 | for every placement of failures and every interleaving of the attempts of many workers, live rows, log and counters are those of the plain store after the effects in commit order, ordinals renamed in order |
| AzureFaultyRuns.TriesAnswerAsThePlainStore | vgi/function_storage_azure_sql.py:433-842 | each answer is the plain store's, at the point of the run where the call first took effect, plus the tombstones removed where it counts |
| AzureCounts.CountIsThePlainStoresExactlyWhen | vgi/function_storage_azure_sql.py:617-687 | in every such run, what a delete or a clear that returns counts is the plain store's count if and only if no tombstone falls under it, or, after a lost commit and nothing written under it since, there was nothing to count |
| AzureCounts.DrainedRowIsCounted | vgi/function_storage_azure_sql.py:617-687 | for every row: written and drained, it is counted by the clear of its scope, where the plain store counts none |
| AzureCounts.LostClearIsNotCounted | vgi/function_storage_azure_sql.py:617-687 | for every row: a clear whose commit was lost answers 0 when repeated, where the plain store counts the row |
| CfPaging.StateScan | vgi/function_storage_cf_do.py:448-475 | the scan loop terminates and yields the rows of the pages it fetches |
| CfPaging.PagingYieldsTheRange | vgi/function_storage_cf_do.py:448-475 | for every cut into pages and every limit the loop yields a prefix of the first rows, all of them if and only if it does not stop on an empty cursor |
| CfPaging.NoRequestBeyondLimit | vgi/function_storage_cf_do.py:448-475 | no page is asked for once the pages before it have met the limit |
| CfPaging.ScanIsCompleteExactly | vgi/function_storage_cf_do.py:448-475 | with cursors that spell the last key, forward or reverse, the scan is complete if and only if the empty key is not alone on the first page |
| CfPaging.Post | vgi/function_storage_cf_do.py:153-266 | posts are repeated after failures in transport, in the server or in the form of the answer, three at most; the last post decides what returns, and with requests that replay the call took effect once if any post was executed |
| CfDrain.ListingIsInDirection | vgi/function_storage_cf_do.py:484-505 | a namespace lists every pair once in key order |
| CfDrain.PagesReplay | vgi/function_storage_cf_do.py:492-498 | a page asked for again under the same attempt and cursor is the same page and changes nothing |
| CfDrain.FetchPage | vgi/function_storage_cf_do.py:507-516 | one page over three posts is served once, or not answered |
| CfDrain.StateDrain | vgi/function_storage_cf_do.py:507-524 | the loop over posts, with other clients writing between pages: an answered drain yields exactly the namespace as it stood at the first page if and only if the empty key is not alone on that page, later writes survive, and a failed page ends it with a prefix |
| CfDrain.DrainIsCompleteExactly | vgi/function_storage_cf_do.py:518-524 | the exact condition, with cursors that spell the last key |
| CfDrain.StalledDrainLosesTheRest | vgi/function_storage_cf_do.py:518-524 | where it fails only the empty key is yielded: every other key is neither yielded nor live |
| CfDrain.EmptyKeyDrainLosesRows | vgi/function_storage_cf_do.py:518-524 | every namespace with the empty key and another one fails it with one-row pages |
| QueryOwner.BuildOwnerBinding | vgi/query_execution.py:62-78 | the loop builds the domain, then principal, attachment and transaction each behind its length, and refuses exactly short attachments and empty transactions |
| QueryOwner.BigEndianDigits | vgi/query_execution.py:69-71 | lengths are eight bytes, the heaviest first |
| QueryOwner.OwnerBindingIsInjective | vgi/query_execution.py:62-78 | over accepted inputs the binding tells principal, attachment and transaction apart |
| QueryOwner.EmptyTransactionWouldCollide | vgi/query_execution.py:66-71 | no transaction and the empty one are the only two the framing cannot tell apart |
| QueryOwner.ContractIsInjective | vgi/query_execution.py:135-139 | the fingerprinted bytes tell request and result apart |
| QueryTicket.SealedTicketOpensExactly | vgi/query_execution.py:142-196 | under any nonce a sealed ticket opens for its own owner, agreement and kind, before expiry where that is checked, and for nothing else, with or without a key |
| QueryTicket.TokenOpensForOneCaller | vgi/query_execution.py:173-196 | no token, however made, opens for two callers, under two agreements or as two kinds |
| QueryTicket.KeyedWorkersExist | vgi/query_execution.py:142-170 | there are keyed workers that meet both assumptions on sealing and give every nonce another token |
| QueryTicket.OnlyTheOwnerReads | vgi/query_execution.py:199-376 | from preparation to reading: only the owner who prepared a query starts it, before it expires, and reads it, from the handle that start of that preparation gave |
| QueryExecutor.QueryStream.Process | vgi/query_execution.py:382-446 | says outright when a call puts out which batch, when it finishes and when it raises, in terms of the ticket, the provider, the agreement, the answer and the output, and the exact trace and state it leaves |
| QueryExecutor.QueryStream.OnCancel | vgi/query_execution.py:448-459 | on an open stream with ticket and provider it asks for one close and the stream is closed exactly when that succeeds; otherwise it changes nothing |
| QueryExecutor.RunKeepsInv | vgi/query_execution.py:382-459 | over every run: positions are read 0, 1, 2, ... once each, one acceptable batch is put out per position right after its read, a closed stream has called close, and a command reaches its end only at position 1 |
| QueryExecutor.ServedToTheEnd | vgi/query_execution.py:382-446 | whatever number of batches a provider serves before its end, exactly they are put out in order, and the stream is closed and finishes |
| QueryExecutor.CommandEmitsOneRow | vgi/query_execution.py:405-432 | a command stream that reached its end put out exactly one batch of one row, its count not negative |
| QueryExecutor.ClosedStaysClosed | vgi/query_execution.py:386-388 | after closing nothing is read, put out or closed, whatever is called |
| QueryExecutor.EndedRunsHaveClosed | vgi/query_execution.py:382-459 | every run that reaches its end, or in which a call fails with the ticket open and a provider there, has called close |
| QueryExecutor.FailureClosesExactlyWithProvider | vgi/query_execution.py:395-446 | a call that fails with the ticket open calls close if and only if the worker still has a provider; without one it changes nothing |
| QueryExecutor.NoProviderNoClose | vgi/query_execution.py:395-396 | every open stream has such failing calls, both to process and to cancel |
| QueryService.SealedOpensOnlyAs | vgi/query_execution.py:142-196 | whatever a service sealed opens, if at all, only to the handle, kind and caller it was sealed for |
| QueryService.ClosingAsks | vgi/query_execution.py:382-459 | a stream becomes closed only by a call whose ticket opens and which asks the provider for a close |
| QueryService.NothingIsDropped | vgi/query_execution.py:199-376 | over every interleaving of preparing, releasing, starting, reading and cancelling by any callers with any tokens: each recipe the provider gave out was released or its ticket is out and opens to it, and each execution it started was asked to close or has an open stream that holds its ticket |
| QueryService.OnlyOwnersAreServed | vgi/query_execution.py:239-446 | over every such interleaving in which nobody makes up a sealed token: what is started, read, closed or released was granted to its own owner |
| QueryService.PreparedQueryIsServed | vgi/query_execution.py:199-446 | a query its owner prepares, starts before it expires and reads to its end, whatever else the service did in between, gives the owner exactly the batches the provider served, in order |
| QueryService.PreparedExactly | vgi/query_execution.py:199-236 | an answer with a recipe is handed out in a token if and only if it is accepted, fits the request, expires within bounds and its ticket is well formed and fits; otherwise it is released |
| QueryService.StartedExactly | vgi/query_execution.py:312-376 | an execution opens a stream if and only if it expires within bounds and its ticket is well formed and fits; otherwise it is closed |
| QueryService.StartedOnlyAsPrepared | vgi/query_execution.py:199-346 | a prepared query is started if and only if its caller asks, before it expires, and it resolves to what was prepared |
| QueryService.OwnerReleases | vgi/query_execution.py:239-244 | its caller can release it at any time, also after expiry, and nobody else can |
| ColumnPath.ResolveColumnPath | vgi/column_path.py:37-54 | the loop finds the field at which every component has exactly one match and every parent is a struct |
| ColumnPath.EditedResolvesToReplacement | vgi/column_path.py:195-244 | after an edit the possibly renamed path resolves to the replacement |
| ColumnPath.EditedExactly | vgi/column_path.py:213-237 | an edit succeeds if and only if its parent is there, is the only one, and lets its fields be edited so; an addition then comes last, a replacement keeps its place and a drop leaves the others |
| ColumnPath.SchemaEditedExactly | vgi/column_path.py:195-244 | the same for whole schemas, with the checks on components and names, metadata kept |
| ColumnPath.OldPathIsGone | vgi/column_path.py:195-244 | a dropped or renamed path no longer resolves |
| ColumnPath.UnrelatedPathsAreKept | vgi/column_path.py:195-244 | every path unrelated to the old and the new target resolves, or fails, as before |
| ColumnPath.AncestorsAreKept | vgi/column_path.py:229-232 | ancestors keep name, nullability and metadata and stay structs |
| ColumnPath.RenameBackRestores | vgi/column_path.py:195-244 | putting the old field back restores all fields and their positions |
| ColumnPath.DropUndoesAdd | vgi/column_path.py:220-237 | dropping what was added restores everything exactly when the parent had a field before, and is refused otherwise |
| ColumnPath.SchemaEditsUndo | vgi/column_path.py:195-244 | both undo laws for whole schemas, metadata included |
| ColumnPath.SatisfiedMeansPrefix | vgi/column_path.py:96-103 | satisfaction means that in each group some present path is a component prefix of a member |
| ColumnPath.SatisfactionIsMonotone | vgi/column_path.py:96-103 | more present paths never lose satisfaction |
| ColumnPath.LegacyPaths.Collect | vgi/column_path.py:115-121 | the recursion files every path of the schema under its dotted spelling, or fails on a malformed component |
| ColumnPath.FromLegacy | vgi/column_path.py:106-137 | each group keeps its place and each name in it becomes the one path of the schema that joins to it; refused if and only if a component is empty or holds a NUL, a group is empty or repeats a name, or a name has not exactly one path |
| ColumnPath.MigratedIsSatisfied | vgi/column_path.py:96-137 | a migrated requirement is satisfied if and only if in each group some present path is a component prefix of the path one of its names stands for |
| ColumnPath.AllPathsResolveExactlyWhenUnique | vgi/column_path.py:37-54 | all fields can be reached by path if and only if sibling names are unique throughout |
| ColumnPath.ResolvesExactlyWhenSingle | vgi/column_path.py:37-54 | a path resolves if and only if it and every path above it name exactly one field of the flattened schema |
| ColumnPath.LegacyNameResolvesExactly | vgi/column_path.py:106-137 | in any schema an accepted name stands for the only path that joins to it, and that path resolves if and only if the flattened schema lists each path above it once |
| ColumnPath.LegacyNameIsSound | vgi/column_path.py:106-137 | in particular it resolves when sibling names are unique |
| ColumnPath.RepeatedSiblingBreaksLegacy | vgi/column_path.py:106-137 | a schema in which an accepted name's path does not resolve |
| Arrow.FindSpec | vgi/column_path.py:46-49 | exactly-one-match lookup finds a field if and only if it is the only one of its name |
| Base64Url.StrictRoundTrip | vgi/attach_ticket.py:312-323 | strict decoding of the encoding of any non-empty byte string gives it back |
| Base64Url.StrictAcceptsExactlyEncodings | vgi/attach_ticket.py:316-323 | the accepted texts are exactly the encodings, one per byte string (sections 3.5 and 5 of RFC 4648) |
| Base64Url.LengthTestIsExact | vgi/attach_ticket.py:316-323 | the length test rejects only texts that encode nothing |
| Base64Url.EncodingIsBase64Url | vgi/attach_ticket.py:312-314 | each three bytes are one number and four digits of the alphabet, a last one or two filled up with zero bits (sections 4 and 5 of RFC 4648) |
| Bytes.DecodeOfEncode | vgi/attach_ticket.py:231-235 | strict UTF-8 (section 3 of RFC 3629) decodes what it encodes |
| Bytes.EncodeOfDecode | vgi/attach_ticket.py:277-281 | and accepts each text in one spelling only |
| Bytes.EncodeIsUtf8 | vgi/attach_ticket.py:231-235 | a text is encoded by the table of section 3 of RFC 3629, if and only if it holds no surrogate |
| Bytes.LittleEndianDigits | vgi/attach_ticket.py:238-252 | byte i of a packed integer is its digit of weight 256 to the i |
| Bytes.LittleEndianOfFromLittleEndian | vgi/attach_ticket.py:238-281 | fixed-width integers have one spelling per value |
| AttachTicket.Cursor.NextText | vgi/attach_ticket.py:269-281 | the cursor takes a length-prefixed text and moves past exactly its bytes |
| AttachTicket.ReadPayload | vgi/attach_ticket.py:254-309 | the cursor-driven decoder is the declarative one, rejection included |
| AttachTicket.DecodeOfEncodedPayload | vgi/attach_ticket.py:238-309 | decoding an encoded valid claim set gives it back |
| AttachTicket.EncodeOfDecodedPayload | vgi/attach_ticket.py:238-309 | every accepted payload holds valid claims and re-encodes to exactly its bytes |
| AttachTicket.PayloadLayout | vgi/attach_ticket.py:231-252 | which claims can be encoded, and the bytes of each field in order |
| AttachTicket.MintsExactly | vgi/attach_ticket.py:326-391 | a ticket is minted if and only if there is a principal, the claims are valid and can be encoded, and the token fits; and which token it is |
| AttachTicket.MintedTicketOpensWhileAlive | vgi/attach_ticket.py:326-442 | what mint returns, open returns for the same key and principal exactly while issued_at - 60 <= now and, with an expiry, now < expires_at + 60 |
| AttachTicket.OpenedTicketIsCanonical | vgi/attach_ticket.py:394-442 | whatever opens was opened under the caller's own principal, is alive and is spelled canonically |
| Decimal.RenderRoundTrip | vgi/arguments.py:584-590 | rendering gives the canonical text of a number |
| Decimal.ValueRoundTrip | vgi/arguments.py:584-590 | each number has one canonical text |
| Decimal.RenderDigits | vgi/arguments.py:584-590 | appending a digit multiplies by ten and adds it |
| Arguments.GuardIsExact | vgi/arguments.py:586-590 | the digit-length guard with the range test rejects exactly the canonical indexes not below the column count |
| Arguments.LargeIndexLeavesAGap | vgi/arguments.py:586-596 | an index the guard rejects would have failed the contiguity test anyway |
| Arguments.ReadBatch | vgi/arguments.py:569-601 | the loop, early guard included, is the declarative decoding |
| Arguments.ReadsExactly | vgi/arguments.py:569-601 | a typed batch means arguments if and only if every column is called after a position or non-emptily after a name and no position is left out below another; each then has the value of its own column |
| Arguments.EncodesExactly | vgi/arguments.py:519-638 | arguments without a schema are encoded if and only if no name holds a NUL and nothing in them holds a null it may not |
| Arguments.EncodedDictIsDistinct | vgi/arguments.py:519-536 | positional and named keys never collide |
| Arguments.DecodeOfEncoded | vgi/arguments.py:569-638 | decoding an encoded batch succeeds if and only if no name is empty, and keeps every value, a missing positional one coming back as a null |
| Arguments.EncodeOfDecoded | vgi/arguments.py:569-638 | encoding what a batch decodes to is that batch in its own field order |

## Left out

- DuckDB: parsing, binding and evaluating SQL; the engine is an abstract function and rendered text is kept only as the names it mentions.
- Cryptography, the choice of nonces, key handling, session authorization and telemetry; clocks are parameters.
- The Durable Object server beyond the page and replay behaviour its client documents; HTTP, database connections and their tuning.
- JSON text and Arrow IPC: documents are JSON values with distinct member names and batches are one-row values; the container checks of `_validate_batch`, `_payload_nbytes` and the context capability are not modelled.
- FilterParser.ElaboratedIsWellTyped: function identities are compared with the fixed list the parser knows, so the separate pattern check on their names is not modelled; lone surrogates in ids and nodes of an unhashable JSON type are not values of the model.
- FilterConvergence.Convergence: predicate order is outside the statement because the code does not make it converge; the order is restored separately (`OrderRestored`).
- FilterClosure.EvaluationIsClosed: bound means registered for this evaluation, which is what counts on a new connection; `FilterConnection` is about used ones. Key batches are values identified by index; a key batch that repeats a column name is not modelled.
- Storage.ScanIsOrderedRange: keys compare bytewise as the code's comments assume; column length limits and collations are not modelled.
- StorageSqlite.FunctionStorageSqlite.StateCounterAdd: counters and row ids are unbounded integers; 64-bit overflow is not modelled.
- ShardedStorage.EachShardHasItsOwnStore: each method of the wrapper is one delegating expression, so the wrapper is a function on operations and not a class of its own.
- AzureFaultyRuns.TryRunRefinesPlainRun: between the two attempts of a call that landed nobody touches its own rows; what happens when someone does is the subject of `AzureRetry`.
- AzureCounts.CountIsThePlainStoresExactlyWhen: after a lost commit it is assumed that nothing is written under the call before it is repeated; otherwise the repeated call counts what was written, by `TriesAnswerAsThePlainStore`.
- FilterConnection.EvaluationThread.Evaluate: opening a connection and its engine version check are not modelled; input and payload tables are registered anew by every evaluation and are part of what it sees.
- AzureRefinement.RunRefinesPlainRun: queue operations carry no attempt id and are not part of the Azure model; a limit below one is refused by the server and excluded.
- AzureSql.FunctionStorageAzureSql.Perform: between the two attempts other writers are one function on the tables; inside a transaction there are none, as each runs isolated.
- CfPaging.StateScan: the range is the same for all pages of one scan; the contract of the server says nothing about a scan whose range changes between pages.
- CfPaging.Post: that requests replay is shown for drain pages (`PagesReplay`); for the other endpoints it is an assumption about the server, sound while no other attempt writes between retries, as the client's documentation requires.
- CfDrain.StateDrain: other clients write between pages, not between the posts of one page.
- QueryExecutor.RunKeepsInv: ticket opening, agreement checks and batch validation are outcomes given to each call; the stored continuation of an HTTP stream is one state and is not resent from an earlier turn.
- QueryTicket.SealedTicketOpensExactly: serialization is an abstract pair that reads back what it wrote, and digests are opaque byte strings.
- AttachTicket.MintedTicketOpensWhileAlive: the AEAD is assumed to open what it sealed; that it opens nothing else is not used.
- Arguments.ReadBatch: nullability is checked through lists and structs; unions, maps, dictionaries and extension storage are not modelled.
- Metadata reflection, argument access and messages, descriptors, Arrow type mapping, code generation, worker dispatch and wiring.
