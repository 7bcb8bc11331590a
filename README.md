# Unit of Work and Repository over Azure Table Storage, in Dafny

This project models the compensation engine of the ASC solution. A Unit of
Work and a generic Repository together emulate all-or-nothing writes over
Azure Table Storage, a store of named tables. A row there is addressed by
partition key and row key, and carries an ETag that the store checks on every
replace and delete. There is no transaction across keys. The engine works in
three steps:

- Every repository mutation (insert, update, soft delete) stamps the entity's
  dates in place and writes the row.
- The mutation then appends an undo of that write to the unit of work's FIFO
  queue of compensating actions.
- For an audit-tracked type, the mutation also inserts a re-keyed copy into
  `{Type}Audit` and queues the undo of that insert too.

Disposing of a unit of work that was not committed dequeues and runs the undos
in the order they were queued.

The repository holds the engine twice, and the model covers both behind one
switch, `Compensation.Variant`:

- `Production` is `ASC.Solution/ASC.DataAccess`.
- `Prototype` is `AzureStorageTest/AzureStorageTest`, with its `BookEntity`.

The copies differ in six places:

- the format of the audit row key;
- the order in which the audit undo is queued;
- how a soft delete is undone;
- paging in the find-all query;
- the completion flag after dispose;
- the type the repository cache constructs.

Layout, one module per file:

- `wrappers.dfy`: `Option`, `Result`, `Outcome`.
- `digits.dfy`: zero-padded digit strings and their parsing.
- `clock.dfy`: the UTC instant and the two audit row-key formats.
- `guid.dfy`: a Guid and its string form.
- `entities.dfy`: the `BaseEntity` record and the `EntityObject` heap object the repositories stamp in place. Also the audit table name, partition key and copy.
- `books.dfy`: `BookEntity` and its two constructors.
- `storage.dfy`: the table store.
  - As values: `Insert`, `Replace`, `Delete`, `CreateIfNotExists`, query segments.
  - As a class `Store`: the table client the repositories call.
- `compensation.dfy`: the compensating actions and mutations as values.
  - `Step`: what running one undo does to the store and to the entity objects.
  - `Replay`: what running a queue in FIFO order does.
  - `ExecuteEffect` and `MutationEffect`: what a mutation does to the store and to the queue.
- `restoration.dfy`: what a rollback achieves in each copy, for the queue of one mutation.
- `sessions.dfy`: a unit of work that made several calls before its rollback.
  - `Run`: the calls in order, their undos joined into one queue.
  - In production, calls on distinct rows through distinct objects are all undone.
  - Two calls on the same record make the rollback throw.
- `engine.dfy`: the classes `UnitOfWork` and `Repository`.
  - Their methods mutate the queue, the flag, the cache, the store and the entity objects.
  - Each is proved against the functions of `compensation.dfy`.
- `scenarios.dfy`: whole runs on a fresh store.

Behaviours of the code a reader may not expect:

- An insert or an update leaves `IsDeleted` as the caller set it. Neither
  resets it.
- Rolling back an update also deletes that update's audit row, because the
  audit insert queued its own undo. So an abandoned update leaves no history.
- After a mutation, the caller's object holds the ETag the store handed back.
  The repository does not refresh the object in any other way.
- A public property without a setter, such as `BookEntity.Id`, is neither
  written to the table nor read back from it. A book found in the store has
  `Guid.Empty` as its id.

## Model

| member | source | states |
|---|---|---|
| `Digits.ValueOfFixedWidth` | ASC.Solution/ASC.DataAccess/Repository.cs:117 | parsing the zero-padded rendering of a number that fits the width gives the number back |
| `Digits.FixedWidthInjective` | ASC.Solution/ASC.DataAccess/Repository.cs:117 | two numbers that fit the width have the same rendering only if they are equal |
| `Clock.AuditRowKeyRoundTrip` | ASC.Solution/ASC.DataAccess/Repository.cs:117 | the production row key `yyyy-MM-ddTHH:mm:ss.fff` of a valid instant parses back to that instant |
| `Clock.AuditRowKeyInjective` | ASC.Solution/ASC.DataAccess/Repository.cs:117 | distinct valid instants get distinct production audit row keys |
| `Clock.AuditRowKey` | ASC.Solution/ASC.DataAccess/Repository.cs:117 | the production key `yyyy-MM-ddTHH:mm:ss.fff` has 23 characters, with `-`, `-`, `T`, `:`, `:` and `.` at fixed places between the fields |
| `Clock.Hour12` | AzureStorageTest/AzureStorageTest/Repository.cs:113 | the `hh` specifier gives an hour from 1 to 12 that agrees with the 24-hour hour modulo 12 |
| `Clock.PrototypeAuditRowKey` | AzureStorageTest/AzureStorageTest/Repository.cs:113 | the prototype key `yyyy-mm-ddThh:mm:ss:fff` has 23 characters and puts the minute both where the month belongs and where the minute does; the hour is the 12-hour one and a `:` precedes the milliseconds |
| `Clock.PrototypeAuditRowKeyCollides` | AzureStorageTest/AzureStorageTest/Repository.cs:113 | the prototype key `yyyy-mm-ddThh:mm:ss:fff` is the same for two distinct valid instants, in different months and twelve hours apart |
| `Guids.GuidStringRoundTrip` | AzureStorageTest/AzureStorageTest/Models/BookEntity.cs:17 | the 8-4-4-4-12 string form of a Guid parses back to the Guid |
| `Guids.GuidStringInjective` | AzureStorageTest/AzureStorageTest/Models/BookEntity.cs:17 | distinct Guids have distinct string forms |
| `Guids.GuidString` | AzureStorageTest/AzureStorageTest/Models/BookEntity.cs:17 | `Guid.ToString()` has 36 characters, with `-` at positions 8, 13, 18 and 23 |
| `Entities.StampInsert` | AzureStorageTest/AzureStorageTest/Repository.cs:66-70 | an insert sets the created date and the modified date to now; keys, ETag, flag and properties are kept |
| `Entities.StampUpdate` | AzureStorageTest/AzureStorageTest/Repository.cs:77-80 | an update sets only the modified date; the created date and the soft-delete flag are kept |
| `Entities.StampDelete` | AzureStorageTest/AzureStorageTest/Repository.cs:32-36 | a delete sets the soft-delete flag and the modified date, and keeps keys, ETag and properties |
| `Entities.AuditTableName` | ASC.Solution/ASC.DataAccess/Repository.cs:97 | the audit table `{Type}Audit` is never the type's own table |
| `Entities.AuditPartitionKey` | ASC.Solution/ASC.DataAccess/Repository.cs:116 | the history partition is the partition key, then `-`, then the row key, each recoverable from its position |
| `Entities.AuditCopy` | ASC.Solution/ASC.DataAccess/Repository.cs:115-117 | the audit copy keeps every field the JSON copy can set, and is re-keyed to partition `{pk}-{rk}` and the given row key; get-only properties are left out |
| `Entities.AuditPartitionKeyInjective` | ASC.Solution/ASC.DataAccess/Repository.cs:116 | records whose partition keys hold no `-` never share an audit partition |
| `Entities.Persisted` | AzureStorageTest/AzureStorageTest/Models/BookEntity.cs:21 | what the table client serializes or materialises of an entity: every field, apart from the get-only properties |
| `Books.EmptyBook` | AzureStorageTest/AzureStorageTest/Models/BookEntity.cs:8-10 | the parameterless constructor leaves both keys unset (empty), the id `Guid.Empty` and the strings null |
| `Books.NewBook` | AzureStorageTest/AzureStorageTest/Models/BookEntity.cs:12-19 | the partition key is the publisher and the row key the id's string form; the id (a get-only property) and the publisher are kept; the book is not deleted and has no ETag |
| `Books.WithText` | AzureStorageTest/AzureStorageTest/Models/BookEntity.cs:22-24 | setting a string property changes that property only |
| `Books.DistinctIdsDistinctKeys` | AzureStorageTest/AzureStorageTest/Models/BookEntity.cs:17 | books built from distinct ids never share a row key |
| `Books.NewBookWithSettableId` | AzureStorageTest/AzureStorageTest/Models/BookEntity.cs:12-21 | the same book with `Id { get; set; }`: the same keys, id and publisher, and no get-only property |
| `Books.StoredBookLosesId` | AzureStorageTest/AzureStorageTest/Models/BookEntity.cs:21 | a book written to a table and read back has `Guid.Empty` as its id, so not the id it was built with; the id can be recovered only from the row key |
| `Books.StoredBookKeepsSettableId` | AzureStorageTest/AzureStorageTest/Models/BookEntity.cs:21 | with a setter on `Id`, a book written to a table and read back keeps its id and publisher |
| `TableStorage.Insert` | ASC.Solution/ASC.DataAccess/Repository.cs:105-108 | an insert succeeds exactly when the table exists and the key is absent; it then writes the row with a fresh ETag; otherwise the error names the cause |
| `TableStorage.Replace` | ASC.Solution/ASC.DataAccess/Repository.cs:170-171 | a replace succeeds exactly when the key is present and the ETag matches the stored one; it then overwrites the row with a fresh ETag |
| `TableStorage.Delete` | ASC.Solution/ASC.DataAccess/Repository.cs:157-158 | a delete succeeds exactly when the key is present and the ETag matches; it then removes that row only |
| `TableStorage.CreateIfNotExists` | ASC.Solution/ASC.DataAccess/Repository.cs:91-92 | the table exists afterwards; every existing table is kept; no other table is added |
| `TableStorage.CreateIfNotExistsIdempotent` | ASC.Solution/ASC.DataAccess/Repository.cs:89-100 | creating a table twice is creating it once |
| `TableStorage.InsertAddsOneRow` | ASC.Solution/ASC.DataAccess/Repository.cs:105-108 | a successful insert adds exactly the entity's key to its table |
| `TableStorage.InsertThenDelete` | ASC.Solution/ASC.DataAccess/Repository.cs:155-159 | deleting an inserted row with the ETag the insert returned succeeds and gives back the tables there were |
| `TableStorage.ReplaceThenRestore` | ASC.Solution/ASC.DataAccess/Repository.cs:161-173 | replacing the pre-write row back with the ETag the write returned succeeds and restores the contents |
| `TableStorage.GetAfterPut` | ASC.Solution/ASC.DataAccess/Repository.cs:64-70 | reading a written row gives back what was written, the soft-delete flag included, with the new ETag and without get-only properties |
| `TableStorage.QuerySegment` | AzureStorageTest/AzureStorageTest/Repository.cs:49-50 | a segment holds at most 1000 consecutive rows of the answer, starting where the previous segment ended; a continuation token comes back exactly when another segment follows; the last segment runs to the end of the answer |
| `TableStorage.FirstSegmentMissesRows` | ASC.Solution/ASC.DataAccess/Repository.cs:76 | when the answer exceeds 1000 rows, however the service cuts it, the row right after the first segment is stored in the queried partition and is absent from the first segment |
| `TableStorage.Store.Retrieve` | ASC.Solution/ASC.DataAccess/Repository.cs:66-67 | retrieve gives the stored row, or nothing when the table or key is absent |
| `TableStorage.Store.ExecuteInsert` | ASC.Solution/ASC.DataAccess/Repository.cs:108 | the store changes as `Insert` says and hands back the new ETag, or changes nothing and hands back the error |
| `TableStorage.Store.ExecuteReplace` | ASC.Solution/ASC.DataAccess/Repository.cs:171 | the store changes as `Replace` says and hands back the new ETag, or changes nothing and hands back the error |
| `TableStorage.Store.ExecuteDelete` | ASC.Solution/ASC.DataAccess/Repository.cs:158 | the store changes as `Delete` says, or changes nothing and hands back the error |
| `TableStorage.Store.CreateTableIfNotExists` | ASC.Solution/ASC.DataAccess/Repository.cs:92 | the store becomes `CreateIfNotExists` of the old store |
| `Compensation.RollbackFor` | ASC.Solution/ASC.DataAccess/Repository.cs:129-153 | Insert gives an undo-insert and Delete an undo-delete; Replace gives an undo-replace holding the pre-write snapshot; each targets the given table and object; any other kind fails with InvalidOperation |
| `Compensation.Reconcile` | ASC.Solution/ASC.DataAccess/Repository.cs:164-168 | the undo-replace writes the snapshot's fields under the written entity's ETag when that ETag is non-empty, and under the snapshot's own ETag otherwise |
| `Compensation.Undeleted` | AzureStorageTest/AzureStorageTest/Repository.cs:146-149 | the prototype undo-delete clears the flag on a BaseEntity and leaves any other entity as it is |
| `Compensation.Step` | ASC.Solution/ASC.DataAccess/Repository.cs:155-184 | running one undo changes only its own entity object's value and keeps the set of tables; an undo that throws leaves the store unchanged |
| `Compensation.Replay` | ASC.Solution/ASC.DataAccess/UnitOfWork.cs:73-80 | replaying a queue runs every action when none throws; otherwise it stops at the first that throws, and the result is that action's step |
| `Compensation.AuditRowKeyFor` | ASC.Solution/ASC.DataAccess/Repository.cs:117 | the audit row key is 23 characters in both copies; production writes `yyyy-MM-ddTHH:mm:ss.fff` (`Clock.AuditRowKey`), the prototype `yyyy-mm-ddThh:mm:ss:fff` (`Clock.PrototypeAuditRowKey`, AzureStorageTest/AzureStorageTest/Repository.cs:113) |
| `Compensation.AuditRowKeyForReads` | AzureStorageTest/AzureStorageTest/Repository.cs:113 | production's audit row key reads back as the instant; the prototype's prints the minute twice, once where the month belongs |
| `Compensation.ReplayCons` | ASC.Solution/ASC.DataAccess/UnitOfWork.cs:75-79 | the head action runs first (FIFO); the rest run on what it left only if it did not throw |
| `Compensation.ReplaySnoc` | ASC.Solution/ASC.DataAccess/UnitOfWork.cs:75-79 | an action appended to the queue runs after all earlier ones, on what they left, and only if none of them threw |
| `Compensation.ReplayStops` | ASC.Solution/ASC.DataAccess/UnitOfWork.cs:75-79 | once a prefix of the queue has thrown, the actions behind it change nothing |
| `Compensation.ReplayTrace` | AzureStorageTest/AzureStorageTest/UnitOfWork.cs:44-51 | every replay is the last entry of a trace whose entries follow one another by single steps |
| `Compensation.WriteRow` | ASC.Solution/ASC.DataAccess/Repository.cs:105-108 | the primary write is an Insert for kind Insert and a Replace otherwise; on success only the written table changes |
| `Compensation.ExecuteEffect` | ASC.Solution/ASC.DataAccess/Repository.cs:102-127 | see the list below the table |
| `Compensation.ExecuteEffectStores` | ASC.Solution/ASC.DataAccess/Repository.cs:105-122 | after a successful primary write, the store is that write followed by the audit insert when it succeeds; the primary row reads back as the written object, and so does the audit row when its insert succeeded |
| `Compensation.AuditEffect` | AzureStorageTest/AzureStorageTest/Repository.cs:107-120 | the audit copy is inserted into the audit table only; a successful insert leaves exactly `Insert` of the copy in the store, and the copy handed back carries the store's new ETag (that the row reads back as that copy is `Compensation.ExecuteEffectStores`); its undo is queued after a successful insert, and in the prototype also when the insert throws; a failed insert changes nothing |
| `Compensation.OperationFor` | AzureStorageTest/AzureStorageTest/Repository.cs:37 | an add passes Insert; an update passes Replace; a delete passes Replace in production and Delete in the prototype |
| `Compensation.Stamp` | ASC.Solution/ASC.DataAccess/Repository.cs:30-62 | only a BaseEntity is stamped. The modified date becomes now, and the created date too on an add. The flag is set on a delete and otherwise kept. Keys and ETag are untouched |
| `Compensation.MutationEffect` | ASC.Solution/ASC.DataAccess/Repository.cs:38 | every action a mutation queues refers to the entity object or to its audit copy's object |
| `Compensation.WithTables` | ASC.Solution/ASC.DataAccess/Repository.cs:89-100 | the type's table exists afterwards, and for an audit-tracked type the audit table too; nothing else is added or changed |
| `Compensation.WithTablesIdempotent` | AzureStorageTest/AzureStorageTest/Repository.cs:85-95 | creating a type's tables a second time adds nothing |
| `Restoration.UndoInsertRestores` | ASC.Solution/ASC.DataAccess/Repository.cs:155-159 | the undo-insert deletes the inserted row with the ETag the insert handed back, and gives its table back the rows it had |
| `Restoration.UndoReplaceRestores` | ASC.Solution/ASC.DataAccess/Repository.cs:161-173 | the undo-replace runs without throwing; it gives the replaced table back its rows, ETags aside, and changes no other table |
| `Restoration.PrimaryUndone` | ASC.Solution/ASC.DataAccess/Repository.cs:104-110 | after a successful insert or replace, the primary undo runs and restores the primary table only |
| `Restoration.AuditUndone` | ASC.Solution/ASC.DataAccess/Repository.cs:119-123 | after a successful audit insert, the audit undo runs and restores the audit table only |
| `Restoration.AuditedRollbackRestores` | ASC.Solution/ASC.DataAccess/Repository.cs:110-125 | replaying an audit-tracked mutation's two undos runs both and leaves the store's contents as before the mutation |
| `Restoration.RollbackRestores` | ASC.Solution/ASC.DataAccess/Repository.cs:102-127 | replaying what an insert or replace queued leaves the store's contents as before, unless the prototype queued the undo of a failed audit insert |
| `Restoration.ProductionRollbackRestores` | ASC.Solution/ASC.DataAccess/Repository.cs:102-127 | in production, rolling back any mutation (completed, or thrown at either write) runs every queued action and restores the store's contents |
| `Restoration.PrototypeRollbackRestores` | AzureStorageTest/AzureStorageTest/Repository.cs:97-122 | in the prototype, rolling back an insert or update restores the store's contents when the audit insert did not throw |
| `Sessions.Run` | ASC.Solution/ASC.DataAccess/Repository.cs:102-127 | the calls of one unit of work run in order, each on the store the one before left, and their undos join one queue; the tables stay, and every queued undo refers to an entity object of one of the calls |
| `Sessions.UndoRestoresRow` | ASC.Solution/ASC.DataAccess/Repository.cs:155-172 | an undo-insert or undo-replace whose row still holds its object's ETag runs without throwing, puts that row back as it was before the call (absent, or the snapshot's contents), and changes no other row |
| `Sessions.ReplayRestores` | ASC.Solution/ASC.DataAccess/UnitOfWork.cs:73-80 | a queue of such undos on pairwise distinct rows, every other row already as before, is run to the end first to last and leaves the store's contents as before |
| `Sessions.PrimaryPlan` | ASC.Solution/ASC.DataAccess/Repository.cs:129-147 | after a successful insert or replace, its undo (with the retrieved snapshot for a replace) is pending on the row written, the store stays valid and no other row changed |
| `Sessions.AuditPlan` | ASC.Solution/ASC.DataAccess/Repository.cs:114-121 | after a successful audit insert, its undo-insert is pending on the audit row, and no other row changed |
| `Sessions.EffectPlan` | ASC.Solution/ASC.DataAccess/Repository.cs:102-127 | whatever one production add, update or delete does (a failed write, a failed audit insert, or both writes) leaves undos pending on the call's own rows, through the call's own objects, and changes no other row |
| `Sessions.RunPlan` | ASC.Solution/ASC.DataAccess/Repository.cs:102-127 | production calls on pairwise distinct rows through distinct objects leave one queue of pending undos on distinct rows, and change no row outside the ones they can write |
| `Sessions.ProductionSessionRollbackRestores` | ASC.Solution/ASC.DataAccess/UnitOfWork.cs:73-80 | in production, rolling back a unit of work whose calls wrote distinct rows through distinct objects runs every queued undo without a throw and leaves the store's contents as before the first call |
| `Sessions.PlainAddEffect` | ASC.Solution/ASC.DataAccess/Repository.cs:30-40 | an add of a plain type on a free key queues one undo-insert, and the row holds the ETag the object now carries |
| `Sessions.PlainUpdateEffect` | ASC.Solution/ASC.DataAccess/Repository.cs:42-51 | an update of a plain type under a matching ETag queues one undo-replace holding the row it overwrote, and the row holds the object's new ETag |
| `Sessions.UndoInsertBeforeReplaceFails` | ASC.Solution/ASC.DataAccess/Repository.cs:155-172 | an undo-insert run before an undo-replace of the same row through the same object deletes the row, and the undo-replace then throws `ResourceNotFound` |
| `Sessions.ProductionAddThenUpdateRollbackFails` | ASC.Solution/ASC.DataAccess/UnitOfWork.cs:73-80 | in production, adding a record and then updating it through the same object in one unit of work queues two undos whose rollback deletes the row and then throws `ResourceNotFound` at the second, leaving the record gone |
| `Restoration.UndoDeleteRuns` | AzureStorageTest/AzureStorageTest/Repository.cs:144-153 | the prototype undo-delete runs. It writes the object back un-flagged, keeping the delete's date, and changes only that row |
| `Restoration.PrototypeRemoveRollback` | AzureStorageTest/AzureStorageTest/Repository.cs:144-153 | rolling back a prototype soft delete runs every action and changes no other row. The deleted row comes back un-flagged, with the delete's date |
| `Restoration.PrototypeRemoveRollbackAudited` | AzureStorageTest/AzureStorageTest/Repository.cs:107-120 | for an audit-tracked type, the audit undo then restores the audit table, and only the deleted row differs from before |
| `Restoration.PrototypeRemoveRollbackKeepsStamp` | AzureStorageTest/AzureStorageTest/Repository.cs:30-38 | so a prototype rollback of a soft delete does not restore the store when the row's stored date differs from the delete's date |
| `Restoration.PrototypeAuditFailureBreaksRollback` | AzureStorageTest/AzureStorageTest/Repository.cs:115-119 | when the prototype's audit insert throws, the rollback runs the undo of that insert, which throws (table missing, or ETag mismatch on the row that was in the way); for an insert or update the primary table has been restored by then |
| `Restoration.UndoOfFailedInsertFails` | AzureStorageTest/AzureStorageTest/Repository.cs:155-159 | the undo of an insert that threw is refused by the store |
| `Engine.UndoInsertOperation` | ASC.Solution/ASC.DataAccess/Repository.cs:155-159 | the store changes as `Delete` of the entity's current value says, or the error is thrown and the store is unchanged |
| `Engine.UndoReplaceOperation` | ASC.Solution/ASC.DataAccess/Repository.cs:161-173 | no snapshot: nothing happens; otherwise the store changes as `Replace` of the reconciled snapshot says, or the error is thrown |
| `Engine.UndoDeleteOperation` | AzureStorageTest/AzureStorageTest/Repository.cs:144-153 | the object itself is un-flagged and written with `Replace`, and takes the new ETag on success |
| `Engine.Invoke` | ASC.Solution/ASC.DataAccess/UnitOfWork.cs:77-78 | invoking an action does to the store and to every tracked object exactly what `Step` says |
| `Engine.Drain` | ASC.Solution/ASC.DataAccess/UnitOfWork.cs:75-79 | the dequeue loop leaves the store, the outcome and the objects as the replay trace's last entry says; the actions after the one that threw stay queued |
| `Engine.UnitOfWork.constructor` | ASC.Solution/ASC.DataAccess/UnitOfWork.cs:14-18 | a new unit of work has an empty queue and is not complete; production has no cache yet, the prototype an empty one |
| `Engine.UnitOfWork.RepositoryFor` | ASC.Solution/ASC.DataAccess/UnitOfWork.cs:48-66 | see the list below the table |
| `Engine.UnitOfWork.CommitTransaction` | ASC.Solution/ASC.DataAccess/UnitOfWork.cs:68-71 | only the flag is set; the queue and the cache are kept |
| `Engine.UnitOfWork.RollbackTransaction` | ASC.Solution/ASC.DataAccess/UnitOfWork.cs:73-80 | the store, the outcome and the entity objects become what `Replay` of the queue says; what remains queued is the suffix after the actions that ran |
| `Engine.UnitOfWork.Dispose` | ASC.Solution/ASC.DataAccess/UnitOfWork.cs:26-44 | see the list below the table |
| `Engine.Repository.constructor` | ASC.Solution/ASC.DataAccess/Repository.cs:19-26 | the repository is bound to its unit of work and its entity type |
| `Engine.Repository.CreateRollbackAction` | ASC.Solution/ASC.DataAccess/Repository.cs:129-153 | the undo is `RollbackFor` the kind, on the primary or audit table, with the row stored under the entity's key before the write as its snapshot |
| `Engine.Repository.Execute` | ASC.Solution/ASC.DataAccess/Repository.cs:102-127 | the store, the entity object, the outcome and the queue (old queue plus the appended undos) change as `ExecuteEffect` says; the audit copy is a fresh object |
| `Engine.Repository.RecordAudit` | AzureStorageTest/AzureStorageTest/Repository.cs:107-120 | the store, the outcome and the queue change as `AuditEffect` says; the audit copy is a fresh object |
| `Engine.Repository.Add` | ASC.Solution/ASC.DataAccess/Repository.cs:30-40 | an add stamps the object in place and executes an Insert, as `MutationEffect` of `Add` says |
| `Engine.Repository.Update` | ASC.Solution/ASC.DataAccess/Repository.cs:42-51 | an update stamps the object in place and executes a Replace, as `MutationEffect` of `Update` says |
| `Engine.Repository.Delete` | ASC.Solution/ASC.DataAccess/Repository.cs:53-62 | a soft delete stamps the object in place and executes with the copy's kind, as `MutationEffect` of `Remove` says |
| `Engine.Repository.Find` | ASC.Solution/ASC.DataAccess/Repository.cs:64-70 | the result is null exactly when no row is stored under the keys; otherwise it is a new object holding the stored row |
| `Engine.Repository.FindFirstSegment` | ASC.Solution/ASC.DataAccess/Repository.cs:72-87 | production's find-all returns only the first segment of the answer: a prefix of at most 1000 rows, exactly as long as the service's first segment |
| `Engine.Repository.FindAllSegments` | AzureStorageTest/AzureStorageTest/Repository.cs:40-55 | the prototype's paging loop returns the whole answer in fetch order, however the service cuts it into segments |
| `Engine.Repository.CreateTable` | ASC.Solution/ASC.DataAccess/Repository.cs:89-100 | the store becomes `WithTables` of the old store |
| `Scenarios.AddToNewTables` | ASC.Solution/ASC.DataAccess/Repository.cs:30-40 | adding a book to freshly created tables succeeds and stores what the client serializes of the stamped book; replaying its undos empties the book table again |
| `Scenarios.AbandonedInsertIsUndone` | ASC.Solution/ASC.DataAccess/UnitOfWork.cs:26-44 | a book added and then disposed of without a commit is not found afterwards |
| `Scenarios.CommittedInsertPersists` | ASC.Solution/ASC.DataAccess/UnitOfWork.cs:68-71 | a book added and committed before dispose is found afterwards under its keys, with its publisher, not deleted, and stamped with the add's instant; its id reads `Guid.Empty`, since `Id` has no setter |
| `Scenarios.DisposeTwice` | ASC.Solution/ASC.DataAccess/UnitOfWork.cs:39-43 | a second dispose runs nothing and changes nothing, because the first left the queue empty |
| `Scenarios.PrototypeRepositoryLookupFails` | AzureStorageTest/AzureStorageTest/UnitOfWork.cs:31-35 | the prototype's repository lookup for a new type fails: it constructs the interface type |
| `Scenarios.ProductionRepositoryCached` | ASC.Solution/ASC.DataAccess/UnitOfWork.cs:55-59 | production's lookup succeeds and hands back the same repository on the second call |

`Compensation.ExecuteEffect` states:

- The primary undo is queued exactly when the primary write succeeds, and it is queued first.
- A write that throws changes nothing.
- The entity takes the store's new ETag.
- A completed mutation queues one undo for a plain type, and for an audit-tracked type two: the primary undo, then the audit undo.
- When the audit insert fails, production queues the primary undo only and the prototype queues both.
- Only the primary table and the audit table change.
- The audit copy is keyed `{pk}-{rk}` and the instant.
- What the store then holds is stated by `Compensation.ExecuteEffectStores`.

`Engine.UnitOfWork.RepositoryFor` states:

- A cached name hands back the cached repository, or fails when the cached one is of another type.
- Otherwise production adds exactly one new repository to the cache, creating the cache first when there is none.
- The prototype fails with a missing method and leaves its cache unchanged.

`Engine.UnitOfWork.Dispose` states:

- When disposing an incomplete unit of work, the store and the objects become what `Replay` of the queue says. Otherwise nothing runs.
- Production clears the queue only when disposing, and leaves the flag false.
- The prototype always clears the queue, and the flag becomes true unless the rollback threw.

## Left out

- Network I/O and the Azure client library are out of scope. The table client
  becomes the in-memory `Store`. A written row gets the ETag `Tag(version)`,
  and every write bumps the version. The connection string and the account
  and client objects are not modelled.
- `async`/`await` are not modelled. The snapshot read of an undo-replace,
  which the code does not await before the write, happens before the write.
  A queued `Task<Action>` is a datatype value run by one executor.
- Each undo is an `async` lambda converted to `Action`, that is an async-void
  method. `action.Result()` invokes it, and it returns at its first `await`,
  so the rollback loop starts the next undo without waiting for the one
  before. An
  exception the undo throws later is rethrown on the thread pool, where it
  ends the process in a console or ASP.NET Core host. Here the undos run one
  after another, and one that fails ends the rollback loop with the actions
  behind it still queued. `Compensation.Replay` and the members built on it
  state this sequential, stop-at-first-failure behaviour.
- The clock is not modelled: each mutation takes one instant `now` for its
  stamps and its audit row key. Calendar formatting is written over integer
  fields.
- `Clock.AuditRowKey`, `Clock.PrototypeAuditRowKey`: the source formats with
  the current culture, where `:` in a custom format is the culture's time
  separator and `yyyy` the year of the culture's calendar. The model assumes
  the invariant culture: `:` and the Gregorian year.
- The JSON deep copy of the audit entity is a value copy of the entity record
  without its get-only properties, which the copy cannot set.
- The `*` ETag, the Timestamp field and the `CreatedBy`/`ModifiedBy` fields
  are not modelled.
- A null key is the empty string.
- The query filter is not evaluated. A query's answer is supplied as the
  ordered rows the service returns, and `TableStorage.QueryResult` states what
  the answer must be. How the service cuts the answer into segments is
  supplied too, as `TableStorage.Segmentation`: any cut into segments of at
  most 1000 rows, possibly empty ones, with a continuation token whenever a
  segment follows. A continuation token is the index of the next segment.
- The finalizer and `GC.SuppressFinalize` are not modelled; `Dispose` takes
  `disposing` as an input. Concurrency between units of work is not modelled.
- `Engine.Repository.Add`: the returned `TableResult.Result` is not modelled.
  The caller's object, which the model updates in place, is what the
  repository hands back.
- `Engine.UnitOfWork.RepositoryFor`: production casts with `as` and so hands
  back null for a cached entry of another type; the prototype throws. Both
  become `Failure(TypeMismatch)`.
- `Engine.Repository.CreateRollbackAction`: an unhandled operation kind makes
  the Task faulted, so the code throws only when the rollback awaits it.
  Here it is a failure returned at once, and the mutations never pass such a
  kind.
- `Engine.Drain` takes the queue as a parameter, where the code dequeues from
  the unit of work's field in place. `RollbackTransaction` stores the
  remainder back, so the unit of work ends in the same state.
- `Restoration.ProductionRollbackRestores`, `Restoration.PrototypeRollbackRestores`,
  `Restoration.RollbackRestores`: each is about the queue of one mutation.
  For several calls in one unit of work, restoration is proved only in
  production, and only for calls on distinct rows through distinct entity
  objects (`Sessions.ProductionSessionRollbackRestores`). Two calls on the
  same record are not restored. The earlier call's undo runs first and takes
  away the row or the ETag the later call's undo needs, so the rollback
  throws (`Sessions.ProductionAddThenUpdateRollbackFails`). Undoing in
  reverse order would not repair this either: the entity object holds only
  the last ETag, so the earlier undo would still meet a stale one. No
  intended behaviour is evident, so this is not listed under Findings.
  Prototype units of work with several calls are covered only call by call.
- The prototype's `IRepository<>` construction fails, so its repositories are
  modelled only through the same `Repository` class as production's, with
  the `Prototype` switch. Only `Scenarios.PrototypeRepositoryLookupFails` uses
  the failing lookup.

## Findings

| source | as written | input that shows it | evidently intended | confidence | as-written member | corrected member |
|---|---|---|---|---|---|---|
| AzureStorageTest/AzureStorageTest/Repository.cs:113 | audit row key format `yyyy-mm-ddThh:mm:ss:fff` puts the minute in the month slot and uses a 12-hour hour | 2024-03-05 02:07:09.004 and 2024-07-05 14:07:09.004 both give `2024-07-05T02:07:09:004` | `yyyy-MM-ddTHH:mm:ss.fff`, one key per instant | high, not executed | `Clock.PrototypeAuditRowKey`, with `Clock.PrototypeAuditRowKeyCollides` | `Clock.AuditRowKey`, with `Clock.AuditRowKeyInjective` |
| ASC.Solution/ASC.DataAccess/Repository.cs:76 | find-all issues one segmented query from a null continuation token and returns that segment | a partition holding 1001 rows: every row after the first segment, at least one since a segment holds at most 1000, is not returned | follow the continuation token until it is null | high, not executed | `Engine.Repository.FindFirstSegment`, with `TableStorage.FirstSegmentMissesRows` | `Engine.Repository.FindAllSegments` |
| AzureStorageTest/AzureStorageTest/UnitOfWork.cs:31-32 | the repository cache constructs `IRepository<>`, an interface, so construction throws | any first lookup of a type | construct `Repository<>`, as production does | high, not executed | `Scenarios.PrototypeRepositoryLookupFails` | `Engine.UnitOfWork.RepositoryFor` (production branch), with `Scenarios.ProductionRepositoryCached` |
| AzureStorageTest/AzureStorageTest/Repository.cs:115-119 | the audit undo is queued before the audit insert runs, so a failed insert leaves an undo that throws at rollback | an audit table that does not exist, or a second mutation of the same record in the same instant | queue the undo after the insert succeeds | high, not executed | `Compensation.AuditEffect` (prototype branch), with `Restoration.PrototypeAuditFailureBreaksRollback` | `Compensation.AuditEffect` (production branch), with `Restoration.ProductionRollbackRestores` |
| AzureStorageTest/AzureStorageTest/Models/BookEntity.cs:21 | `Id` is declared `{ get; }`; the table client stores only properties with a public setter, so a stored book has no id | `new BookEntity(id, "p")` added, committed and found again by `FindAsync("p", id.ToString())` has `Id == Guid.Empty` | `public Guid Id { get; set; }`, so that a found book carries its id | high, not executed | `Books.NewBook`, with `Books.StoredBookLosesId` and `Scenarios.CommittedInsertPersists` | `Books.NewBookWithSettableId`, with `Books.StoredBookKeepsSettableId` |
