# Flowsy.EventSourcing.Sql in Dafny

This project models the core of Flowsy.EventSourcing.Sql, an event-sourcing persistence layer. It has four parts:

- **Aggregate repository.** It stores one aggregate, or a batch of aggregates, into a Marten-style document session. The batch plans the stream calls: it stable-sorts every pending event by initiation instant, starts each new aggregate's stream with its earliest event, and appends the rest one event at a time. It then commits once, publishes the events in that order and flushes every aggregate.
- **Event repository.** It adds a unit-of-work mode. `BeginPersistence` defers commits. While deferring, stores are only staged. `SaveChanges` then commits them together, publishes all their events by instant, flushes the sources and returns to idle.
- **SQL event store.** A save writes each event as one row of a configured table. A load selects a key's rows in id order and decodes each row through a fixed ladder of checks. Any bad row fails the whole load. Disposal closes the connection the store owns.
- **Codec and configuration.** A version string selects the codec; 1.0 is the only one and is created lazily and cached. The codec builds metadata from an event's type and decodes payloads through the type the metadata names. Each store type has a configuration of table and column names, kept in a registry keyed by type.

The external libraries are parameters, not code:

- The document session's commit is a `Session` function from the calls logged so far to an outcome.
- The database is a `Database` pair of functions from the commands sent so far to a reply.
- JSON, type resolution and `ToString` form a `Runtime` record of functions.

Every call a repository makes to the session or the publisher is logged as an `Op`. Every command a store sends is logged as a `Command`. Events carry an integer initiation instant. The stable sort is an insertion sort, `Ordering.SortBy`, and it is proved to be the unique stable sort by its key.

Two behaviours of the code are easy to misread:

- The repositories' `DisposeAsync` disposes the session on every call, before the idempotent `Dispose(false)`. Only `Dispose` is idempotent, not every disposal path.
- `LoadRecordsAsync` calls `ToString()` on each column before its `is null` check. A SQL NULL therefore raises, and those checks never fire. The store's load (`DecodeOne`, `LoadRecords`, `LoadEvents`) decodes rows this way, as `StoreRows.DecodeRowAsWritten`. The null-safe reading the checks intend is `StoreRows.DecodeRow`. See "## Findings".

## Model

| member | source | states |
|---|---|---|
| Common.StreamOp | Flowsy.EventSourcing.Sql/AggregateRepository.cs:57-60 | A new source gets a StartStream carrying all its events. An existing one gets an Append at its version carrying all its events. Never both. |
| Ordering.SortBySortedPermutation | Flowsy.EventSourcing.Sql/AggregateRepository.cs:81 | The sort's result is ordered by the key, and it is a permutation of the input with the same length. |
| Ordering.SortByStable | Flowsy.EventSourcing.Sql/AggregateRepository.cs:81 | The sort is stable: for every key value, the elements with that key keep their input order. |
| Ordering.SortByMembers | Flowsy.EventSourcing.Sql/AggregateRepository.cs:81 | Sorting keeps exactly the input's elements, and its length. |
| Ordering.SortedUnique | Flowsy.EventSourcing.Sql/AggregateRepository.cs:81 | Two sequences that are both sorted by the key and keep the same per-key subsequences are equal. |
| Ordering.SortByCharacterization | Flowsy.EventSourcing.Sql/AggregateRepository.cs:81 | A sequence is `SortBy`'s result exactly when it is a stable sort of the input by the key (both directions). |
| Ordering.InsertSorted | Flowsy.EventSourcing.Sql/AggregateRepository.cs:81 | Inserting into a sorted sequence keeps it sorted. |
| Ordering.InsertPermutes | Flowsy.EventSourcing.Sql/AggregateRepository.cs:81 | Insertion adds exactly the one element. |
| Ordering.WithKeyInsert | Flowsy.EventSourcing.Sql/AggregateRepository.cs:81 | Insertion places an element before every element with an equal key. Since the sort inserts from the back of the input, this keeps equal keys in input order. |
| Aggregates.FlattenMembers | Flowsy.EventSourcing.Sql/AggregateRepository.cs:75-80 | A pair is in the flattening exactly when it names an input aggregate and one of that aggregate's events. |
| Aggregates.FlattenEvents | Flowsy.EventSourcing.Sql/AggregateRepository.cs:75-80 | Dropping the owners from the flattened pairs gives every aggregate's events in input order. |
| Aggregates.EventsOfSortBy | Flowsy.EventSourcing.Sql/AggregateRepository.cs:81 | Sorting the pairs and then dropping the owners equals dropping the owners and then sorting the events. |
| Aggregates.Schedule | Flowsy.EventSourcing.Sql/AggregateRepository.cs:74-82 | The batch's pairs are every (aggregate, pending event) pair, sorted by instant, stably against input order, one per pending event. |
| Aggregates.EmptySchedule | Flowsy.EventSourcing.Sql/AggregateRepository.cs:84-85 | The schedule is empty exactly when no aggregate has a pending event. |
| Aggregates.OneOperationPerEvent | Flowsy.EventSourcing.Sql/AggregateRepository.cs:90-101 | The batch makes as many stream calls as there are pending events. |
| Aggregates.PublishedEvents | Flowsy.EventSourcing.Sql/AggregateRepository.cs:100-106 | The published list equals the stable sort by instant of all pending events. |
| Aggregates.FirstOccurrence | Flowsy.EventSourcing.Sql/AggregateRepository.cs:92 | Each aggregate that appears in the schedule has a first pair. |
| Aggregates.ExactlyOneStart | Flowsy.EventSourcing.Sql/AggregateRepository.cs:87-98 | An aggregate gets a StartStream exactly when it is new and has pending events, and it gets at most one. |
| Aggregates.StartCarriesEarliest | Flowsy.EventSourcing.Sql/AggregateRepository.cs:92-95 | The event a StartStream carries is the earliest of its aggregate's pending events. |
| Aggregates.EarlierAggregateFirst | Flowsy.EventSourcing.Sql/AggregateRepository.cs:81-101 | If an aggregate has an event earlier than all of another's, its first call precedes all of the other's calls. |
| Aggregates.AggregateRepository.constructor | Flowsy.EventSourcing.Sql/AggregateRepository.cs:12-16 | The repository holds the given session, and a publisher exactly when one is given. Nothing is logged yet and it is not disposed. |
| Aggregates.AggregateRepository.Store | Flowsy.EventSourcing.Sql/AggregateRepository.cs:50-67 | The log grows by the stream call, one commit, and then (only if the commit succeeds) the publish of those events and the flush. The outcome is the commit's. |
| Aggregates.AggregateRepository.StoreBatch | Flowsy.EventSourcing.Sql/AggregateRepository.cs:69-110 | An empty schedule makes no call. Otherwise the log grows by one call per scheduled pair, then one commit, then (on success) the sorted publish and a flush of every input aggregate. |
| Aggregates.AggregateRepository.StageEntries | Flowsy.EventSourcing.Sql/AggregateRepository.cs:87-101 | The loop with its started-streams set issues exactly the planned calls and collects the events in schedule order. |
| Aggregates.AggregateRepository.FlushAll | Flowsy.EventSourcing.Sql/AggregateRepository.cs:108-109 | Every input aggregate is flushed, in input order, including those with no events. |
| Aggregates.AggregateRepository.Dispose | Flowsy.EventSourcing.Sql/AggregateRepository.cs:24-35 | Only the first call releases the session, and only if it is made with disposing true. The repository ends disposed. |
| Aggregates.AggregateRepository.DisposeAsync | Flowsy.EventSourcing.Sql/AggregateRepository.cs:43-48 | The session is released asynchronously on every call, then the repository is marked disposed. |
| UnitOfWork.EventRepository.constructor | Flowsy.EventSourcing.Sql/EventRepository.cs:15-24 | Both constructors hold the given session; `hasPublisher` is false for the session-only overload and true for the overload with a publisher. The repository starts idle, with nothing staged, nothing logged and not disposed. |
| UnitOfWork.EventRepository.BeginPersistence | Flowsy.EventSourcing.Sql/EventRepository.cs:58-64 | It fails while already deferring and changes nothing. Otherwise it moves idle to deferring. |
| UnitOfWork.EventRepository.Store | Flowsy.EventSourcing.Sql/EventRepository.cs:66-87 | Either mode stages exactly one stream call. Deferring adds the source to the list with no commit. Idle commits, then (on success) publishes and flushes the source, leaving the list alone. |
| UnitOfWork.EventRepository.SaveChanges | Flowsy.EventSourcing.Sql/EventRepository.cs:89-113 | Idle fails with nothing changed. An empty list returns to idle with no call. Otherwise it commits once; on failure it stays deferring with the list intact; on success it publishes all staged events sorted by instant, flushes every staged source, clears the list and goes idle. |
| UnitOfWork.EventRepository.FlushAll | Flowsy.EventSourcing.Sql/EventRepository.cs:108-109 | Every staged source is flushed, in store order. |
| UnitOfWork.EventRepository.Dispose | Flowsy.EventSourcing.Sql/EventRepository.cs:32-43 | Only the first call releases the session, and only if it is made with disposing true. The repository ends disposed. |
| UnitOfWork.EventRepository.DisposeAsync | Flowsy.EventSourcing.Sql/EventRepository.cs:51-56 | The session is released asynchronously on every call, then the repository is marked disposed. |
| StoreConfiguration.Configuration.constructor | Flowsy.EventSourcing.Sql/DbEventStoreConfiguration.cs:7-34 | Every property takes its argument. `Defaults` holds the default arguments: table "event" and columns id, key, type, payload, metadata, timestamp, version, correlationId. |
| StoreConfiguration.TableFqnShape | Flowsy.EventSourcing.Sql/DbEventStoreConfiguration.cs:39 | The name ends with the table. With a schema it is the schema, a dot and the table; without one it is the table alone. |
| StoreConfiguration.DefaultTargetTable | Flowsy.EventSourcing.Sql/DbEventStoreConfiguration.cs:7-10 | The default configuration targets table "event" with no schema. |
| StoreConfiguration.Configuration.Clone | Flowsy.EventSourcing.Sql/DbEventStoreConfiguration.cs:50-64 | The clone is a new object whose every property equals the original's. |
| StoreConfiguration.ConfigurationRegistry.GetForType | Flowsy.EventSourcing.Sql/DbEventStoreConfiguration.cs:74-80 | A registered type yields its configuration. A type never registered fails with configuration-not-found. |
| StoreConfiguration.ConfigurationRegistry.Register | Flowsy.EventSourcing.Sql/DbEventStoreConfiguration.cs:69-72 | Afterwards the type yields the new configuration, replacing any earlier one. Every other type yields what it did before. |
| RecordManager.Dispatch | Flowsy.EventSourcing.Sql/DbEventRecordManager.cs:19-24 | The version "1.0" selects the codec whose Version is "1.0". Every other version fails with not-supported. |
| RecordManager.DefaultVersionSupported | Flowsy.EventSourcing.Sql/DbEventRecordManager.cs:19 | The default version argument selects the 1.0 codec. |
| RecordManager.ManagerCache.GetInstance | Flowsy.EventSourcing.Sql/DbEventRecordManager.cs:8-24 | "1.0" returns the cached manager, created fresh on the first request only. Any other version fails and leaves the cache unchanged. |
| RecordManagerV1.MetadataOf | Flowsy.EventSourcing.Sql/DbEventRecordManagerV1.cs:12-18 | The metadata's version is "1.0", its event type is the event's short type name and its qualified name is the type's full name. |
| RecordManagerV1.ReadMetadata | Flowsy.EventSourcing.Sql/DbEventRecordManagerV1.cs:20-21 | Malformed JSON fails, the JSON null yields no metadata, and anything else yields the decoded metadata (each an if-and-only-if). |
| RecordManagerV1.DecodePayload | Flowsy.EventSourcing.Sql/DbEventRecordManagerV1.cs:23-34 | An unresolvable type fails with type-not-found before any deserialisation. Success holds exactly when the type resolves, the text deserialises to a non-null object, and the cast holds; the result is then that object. |
| RecordManagerV1.PayloadRoundTrip | Flowsy.EventSourcing.Sql/DbEventRecordManagerV1.cs:14-34 | When JSON reading inverts writing and the type resolves, decoding an event's payload under its own metadata returns the event. |
| StoreSql.SplitJoin | Flowsy.EventSourcing.Sql/DbEventStore.cs:101-106 | Comma-free names joined with ", " read back as the same list of names. |
| StoreSql.InsertListsAlign | Flowsy.EventSourcing.Sql/DbEventStore.cs:101-113 | The insert's column list reads back as id, key, type, payload, metadata, timestamp, version, correlationId. The value list reads back as its eight fixed entries, position by position. |
| StoreSql.DefaultedColumns | Flowsy.EventSourcing.Sql/DbEventStore.cs:107 | Exactly the id and timestamp positions take the database default. |
| StoreSql.InsertValuesSplit | Flowsy.EventSourcing.Sql/DbEventStore.cs:107 | The fixed value list is "default, @Key, @Type, @Payload, @Metadata, default, @Version, @CorrelationId". |
| StoreSql.SelectColumns | Flowsy.EventSourcing.Sql/DbEventStore.cs:154-159 | The select reads every inserted column except the key, in the insert's order. |
| StoreSql.SelectListSplits | Flowsy.EventSourcing.Sql/DbEventStore.cs:154-162 | The select's column list reads back as those seven columns. |
| StoreSql.InsertStatementShape | Flowsy.EventSourcing.Sql/DbEventStore.cs:101-113 | The insert reads back as "insert into", the configured table and "(", then the joined column list, then ") values (", the fixed value list and ")". |
| StoreSql.SelectStatementShape | Flowsy.EventSourcing.Sql/DbEventStore.cs:154-162 | The select reads back as "select " and the joined selected columns, then " from " and the configured table, then " where ", the key column, " = @Key order by " and the id column: one key's rows in id order. |
| StoreSql.Statement.Text | Flowsy.EventSourcing.Sql/DbEventStore.cs:113 | An insert statement's text begins "insert into ", and a select statement's text begins "select ". |
| StoreSql.InsertArgsBinding | Flowsy.EventSourcing.Sql/DbEventStore.cs:109-122 | The insert binds the key, the metadata's event type, both JSON texts, the codec version "1.0" and the correlation id as given. |
| StoreRows.SavedVersionLoadable | Flowsy.EventSourcing.Sql/DbEventStore.cs:109-120 | The version every save writes is the default version, and the load's dispatch accepts it. |
| StoreRows.ReadText | Flowsy.EventSourcing.Sql/DbEventStore.cs:174-214 | A missing column fails, and text reads as itself. SQL NULL raises as written; null-safe, it reads as absent, which is the only way to get absent. |
| StoreRows.CoerceId | Flowsy.EventSourcing.Sql/DbEventStore.cs:198-207 | A 64-, 32- or 16-bit integer id keeps its value. Any other value becomes 0. |
| StoreRows.DecodeRowUsing | Flowsy.EventSourcing.Sql/DbEventStore.cs:172-216 | Under either reading, a decoded record carries the requested key, the metadata's event type, a supported version, the row's DateTime timestamp and the coerced id. The version, metadata and payload columns are non-NULL, and the correlation id is absent exactly when its column is NULL. |
| StoreRows.DecodeRow | Flowsy.EventSourcing.Sql/DbEventStore.cs:172-216 | The null-safe reading the checks intend never fails with a null reference. |
| StoreRows.DecodeRowAsWritten | Flowsy.EventSourcing.Sql/DbEventStore.cs:172-216 | As written, a row decodes only if its version, metadata, payload and correlation-id columns are all non-NULL. The missing-version, missing-metadata and missing-payload errors never occur. |
| StoreRows.ReadingsAgree | Flowsy.EventSourcing.Sql/DbEventStore.cs:174-214 | On a row with no NULL column, the code as written and the null-safe reading decode the same result. |
| StoreRows.ValidationOrder | Flowsy.EventSourcing.Sql/DbEventStore.cs:174-190 | The checks run in order: missing version, then missing metadata, then non-DateTime timestamp, then unsupported version. Each failure wins whatever the later columns hold. The missing-version and missing-metadata cases are stated for the null-safe reading; as written those columns raise instead (`AsWrittenNullRaises`). The timestamp and version cases hold under both readings, so they also hold for the store's load, NULL correlation id included. |
| StoreRows.MetadataPayloadOrder | Flowsy.EventSourcing.Sql/DbEventStore.cs:186-196 | After a "1.0" version, metadata text and a DateTime timestamp: under both readings, malformed metadata fails with malformed-JSON and JSON-null metadata with metadata-unreadable, whatever the payload holds. Null-safe, once the metadata decodes, a NULL payload fails with payload-not-found before any type is resolved; as written it raises instead (`AsWrittenNullRaises`). |
| StoreRows.AsWrittenNullRaises | Flowsy.EventSourcing.Sql/DbEventStore.cs:174-194 | As written, a NULL version column, a NULL metadata column after a version, or a NULL payload column after decoded metadata each fail with a null reference instead of their intended error. |
| StoreRows.DecodeRowsSucceeds | Flowsy.EventSourcing.Sql/DbEventStore.cs:170-218 | A successful load has one record per row, in row order, each the decoding of its row. |
| StoreRows.DecodeRowsAllDecoded | Flowsy.EventSourcing.Sql/DbEventStore.cs:170-218 | When every row decodes, the load returns exactly those records in row order. |
| StoreRows.DecodeRowsFirstFailure | Flowsy.EventSourcing.Sql/DbEventStore.cs:170-218 | The first bad row's error is the load's error, whatever follows. No partial result is returned. |
| StoreRows.Payloads | Flowsy.EventSourcing.Sql/DbEventStore.cs:139 | The events are the records' payloads, one for one, in order. |
| StoreRows.StoredRow | Flowsy.EventSourcing.Sql/DbEventStore.cs:112-124 | The row an insert leaves holds the bound values, the assigned id and timestamp, and NULL for an absent correlation id. |
| StoreRows.SaveLoadRoundTrip | Flowsy.EventSourcing.Sql/DbEventStore.cs:88-216 | Given `Restores`, the row saved for an event decodes to a record of that event: same key, type name, metadata, version "1.0", id, timestamp and correlation id. Null-safe this holds for every save; as written, only for a save that gives a correlation id. |
| StoreRows.SavedEventsLoadInOrder | Flowsy.EventSourcing.Sql/DbEventStore.cs:130-218 | Given `Restores` for every event, the rows stored for a sequence of saved events, read back in save order, all decode, and their payloads are exactly those events. Null-safe this holds for every save; as written, only when a correlation id is given. |
| StoreRows.AsWrittenRejectsUncorrelated | Flowsy.EventSourcing.Sql/DbEventStore.cs:214 | As written, the row saved without a correlation id fails to load with a null reference, while the null-safe reading decodes it. |
| EventStore.InsertCommands | Flowsy.EventSourcing.Sql/DbEventStore.cs:130-134 | A sequence of saves sends exactly one insert per event. |
| EventStore.RunAllSendsPrefix | Flowsy.EventSourcing.Sql/DbEventStore.cs:130-134 | A run of inserts (`RunAll`) sends the commands already sent followed by a prefix of its inserts, in order and nothing else. |
| EventStore.InsertCommandAt | Flowsy.EventSourcing.Sql/DbEventStore.cs:130-134 | There is one insert per event, and the j-th saves the j-th event under the same key and correlation id. |
| EventStore.RunAllPrefix | Flowsy.EventSourcing.Sql/DbEventStore.cs:130-134 | Once the first i inserts have succeeded, the rest of the run is the run of the remaining inserts, with those i sent. |
| EventStore.RunAllSucceeds | Flowsy.EventSourcing.Sql/DbEventStore.cs:130-134 | A sequence of saves succeeds exactly when every save succeeds, and then all inserts are sent. |
| EventStore.RunAllStopsAtFirstFailure | Flowsy.EventSourcing.Sql/DbEventStore.cs:130-134 | A failing sequence has sent the inserts up to and including the failing one, each earlier one succeeded, and it reports that failure. The earlier inserts stay made. |
| EventStore.DbEventStore.constructor | Flowsy.EventSourcing.Sql/DbEventStore.cs:22-31 | A store over a connection (`overTransaction` false) or over a transaction's connection (true) holds that connection. It starts with nothing sent and not disposed. |
| EventStore.DbEventStore.FromFactory | Flowsy.EventSourcing.Sql/DbEventStore.cs:17-20 | The connection comes from the factory under the configuration's connection key. A store type with no configuration fails. |
| EventStore.DbEventStore.CurrentSettings | Flowsy.EventSourcing.Sql/DbEventStore.cs:79-80 | The store's configuration is the registry's entry for its type. It fails with configuration-not-found when the type has none. |
| EventStore.DbEventStore.Save | Flowsy.EventSourcing.Sql/DbEventStore.cs:85-125 | With a configuration, exactly one insert of the event's row is sent and its reply is the outcome, and the 1.0 manager then exists in the cache. Without one, nothing is sent. A cached manager is never replaced. |
| EventStore.DbEventStore.SaveAll | Flowsy.EventSourcing.Sql/DbEventStore.cs:127-134 | The commands sent and the outcome are those of running the per-event inserts in order, stopping at the first failure. An empty sequence sends nothing. A cached manager is never replaced. |
| EventStore.DbEventStore.DecodeOne | Flowsy.EventSourcing.Sql/DbEventStore.cs:174-215 | The loop body, fetching each codec from the shared cache, decodes a row exactly as the code as written does (`DecodeRowAsWritten`). A cached manager is never replaced. |
| EventStore.DbEventStore.LoadRecords | Flowsy.EventSourcing.Sql/DbEventStore.cs:142-219 | One select ordered by id is sent. The result is the query's error or the all-or-nothing as-written decoding of its rows. A cached manager is never replaced. |
| EventStore.DbEventStore.LoadEvents | Flowsy.EventSourcing.Sql/DbEventStore.cs:136-140 | The result is the records' payloads, in order, or the records' error. A cached manager is never replaced. |
| EventStore.DbEventStore.Dispose | Flowsy.EventSourcing.Sql/DbEventStore.cs:38-49 | Only the first call closes the connection, and only when disposing and not running over a caller's transaction. |
| EventStore.DbEventStore.DisposeAsync | Flowsy.EventSourcing.Sql/DbEventStore.cs:51-65 | Like Dispose, except that a DbConnection closes asynchronously and any other connection closes synchronously. |

## Left out

- Marten's own behaviour is not modelled: the optimistic-concurrency check in Append, what SaveChangesAsync persists, and stream replay. The commit is an uninterpreted reply to the logged calls.
- The `LoadAsync` overloads of both repositories are left out. They rebuild an aggregate through Marten's `AggregateStreamAsync`, with null version bounds taken as 0. The event repository's overloads also pass a non-null result to an optional `configure` callback. Marten's stream replay is not modelled, so there is nothing for these to return.
- StartStream's aggregate type argument is not logged. Only the stream id and events are.
- Aggregates and event sources are values. Flush is a logged call, so the model does not clear a source's pending events in place.
- Both repositories read a source's events when they stage it. `EventRepository.SaveChangesAsync` reads each staged source's `Events` again at commit time, for the publish. The model publishes the events it captured at `Store`. A source changed between staging and commit is not represented.
- The batch store's `HashSet` is keyed by object reference. The model identifies an aggregate by its position in the input, so the same object passed twice in one batch is not represented.
- `EventRepository.SaveChangesAsync` hands the publisher a lazy query over the list it then clears. The model publishes the sorted list as it is at the time of the call.
- Publishing is fire-and-forget. The model records only that publish was called and with what.
- JSON serialisation, `Type.GetType`, `GetType().Name/FullName`, the cast to the event type and `object.ToString()` are uninterpreted functions of a `Runtime` parameter.
- Dapper and the database are not modelled. Statements are logged, replies are parameters, and a row is a map from column name to value.
- A command names its statement (`InsertEvent` or `SelectByKey` over the configuration). The statement's SQL text, built as in the source, is `Statement.Text()`. Quoting of names and the behaviour of the SQL itself are not modelled.
- Async/await, cancellation tokens, finalizers and `GC.SuppressFinalize` are left out. The public `Dispose()` and `DisposeAsync()` of the store are `Dispose(true)` and `DisposeAsync(true)`.
- Error messages from the resource strings are distinct error tags here.
- The dependency-injection wiring (`DependencyInjection.cs`, `DbEventSourcingBuilder.cs`) is not part of this model.
- StoreRows.SaveLoadRoundTrip assumes `Restores`. It assumes the JSON layer reads back the event and its metadata. It also assumes `Type.GetType` resolves the type's `FullName` to the event's own type. Neither is proved here. The store serialises through `SerializeJson<TEvent>`, so System.Text.Json writes the properties of the declared event type. A derived event's own properties are dropped unless polymorphic serialisation is configured. For such events the payload does not read back whole, and `Restores` does not hold.
- StoreRows.SavedEventsLoadInOrder assumes `Restores` for every saved event, as SaveLoadRoundTrip does.
- StoreRows.AsWrittenRejectsUncorrelated assumes `Restores` too, so that the null-safe reading of the same row succeeds.
- RecordManagerV1.PayloadRoundTrip assumes the JSON payload round trip, and that the type resolves by its full name to the event's type.
- Type resolution is an assumption about .NET, not about the serialiser. The codec writes `Type.FullName`, with no assembly qualifier, and resolves it with `Type.GetType`. `Type.GetType` then searches only the calling assembly and the core library. An event type declared in another assembly may therefore fail with type-not-found on load. The model leaves this to the `Runtime` parameter.

## Findings

| source | as written | input that shows it | evidently intended | confidence | as-written member | corrected member |
|---|---|---|---|---|---|---|
| Flowsy.EventSourcing.Sql/DbEventStore.cs:174-214 | Each column is read with `r[column].ToString()` and then checked with `is null`. A SQL NULL delivered as a null reference throws before the check runs, so the version, metadata and payload checks can never fire (`StoreRows.AsWrittenNullRaises`). The correlation-id read throws too. The store's load follows the code as written. | Save an event with `SaveAsync(key, event, ct)`, which stores a NULL correlation id. Then load the key: reading the correlation id raises, and the whole load fails. | Null-safe reads (`?.ToString()`): NULL version, metadata or payload reach their intended errors, and a NULL correlation id becomes an absent correlation id. | medium (depends on the query layer delivering NULL as null rather than DBNull); not executed | StoreRows.AsWrittenRejectsUncorrelated | StoreRows.SaveLoadRoundTrip |
