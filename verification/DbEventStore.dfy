/**
 * The SQL event store: saves events as rows of the configured table, loads
 * a key's rows in id order and decodes them, and closes the connection it
 * owns when disposed.
 */
module EventStore {
  import opened Common
  import opened Platform
  import opened StoreConfiguration
  import opened StoreSql
  import opened StoreRows
  import opened RecordManager

  /** A command sent over the connection; a statement's SQL text is its Text(). */
  datatype Command =
    | Execute(statement: Statement, args: InsertArgs)
    | Query(statement: Statement, key: string)
    | CloseConnection
    | CloseConnectionAsync

  /** The connection: the reply to each statement, given every command sent before it. */
  datatype Database = Database(
    execute: (seq<Command>, Command) -> Outcome,
    query: (seq<Command>, Command) -> Result<seq<Row>>)

  /** The insert that saves one event under a key. */
  function InsertCommand(s: Settings, rt: Runtime, key: string, event: Event, correlationId: Option<string>): Command
  {
    Execute(InsertEvent(s), InsertArgsFor(s, rt, key, event, correlationId))
  }

  /** The inserts that save a sequence of events under one key, one per event. */
  function InsertCommands(s: Settings, rt: Runtime, key: string, events: seq<Event>, correlationId: Option<string>)
    : (cmds: seq<Command>)
    ensures |cmds| == |events|
  {
    if events == [] then []
    else [InsertCommand(s, rt, key, events[0], correlationId)] + InsertCommands(s, rt, key, events[1..], correlationId)
  }

  /** The j-th insert saves the j-th event, under the same key and correlation id. */
  lemma {:induction false} InsertCommandAt(s: Settings, rt: Runtime, key: string, events: seq<Event>,
                                           correlationId: Option<string>, j: nat)
    requires j < |events|
    ensures var cmds := InsertCommands(s, rt, key, events, correlationId);
      |cmds| == |events| && cmds[j] == InsertCommand(s, rt, key, events[j], correlationId)
    decreases j
  {
    if j > 0 {
      InsertCommandAt(s, rt, key, events[1..], correlationId, j - 1);
    }
  }

  /** The commands sent by the end of a run of statements, and its outcome. */
  datatype Run = Run(sent: seq<Command>, outcome: Outcome)

  /** Sends statements one after another, stopping after the first that fails. */
  function RunAll(db: Database, sent: seq<Command>, cmds: seq<Command>): Run
    decreases |cmds|
  {
    if cmds == [] then Run(sent, Pass)
    else
      var reply := db.execute(sent, cmds[0]);
      if reply.Fail? then Run(sent + [cmds[0]], reply) else RunAll(db, sent + [cmds[0]], cmds[1..])
  }

  /**
   * A run sends the commands already sent followed by a prefix of its
   * statements, nothing else and nothing out of order.
   */
  lemma {:induction false} RunAllSendsPrefix(db: Database, sent: seq<Command>, cmds: seq<Command>)
    ensures var run := RunAll(db, sent, cmds);
      && |sent| <= |run.sent| <= |sent| + |cmds|
      && run.sent == sent + cmds[..|run.sent| - |sent|]
    decreases |cmds|
  {
    if cmds != [] && db.execute(sent, cmds[0]).Pass? {
      var c := cmds[0];
      RunAllSendsPrefix(db, sent + [c], cmds[1..]);
      var n := |RunAll(db, sent, cmds).sent| - |sent + [c]|;
      assert cmds[..n + 1] == [c] + cmds[1..][..n];
    } else if cmds != [] {
      assert cmds[..1] == [cmds[0]];
    }
  }

  /** The first n statements each succeed when sent after the ones before them. */
  ghost predicate FirstSucceed(db: Database, sent: seq<Command>, cmds: seq<Command>, n: nat)
    requires n <= |cmds|
  {
    forall j :: 0 <= j < n ==> db.execute(sent + cmds[..j], cmds[j]).Pass?
  }

  /** Moving the first statement into what was already sent. */
  lemma FirstSucceedShift(db: Database, sent: seq<Command>, cmds: seq<Command>, n: nat)
    requires 0 < n <= |cmds|
    ensures FirstSucceed(db, sent, cmds, n) <==>
      db.execute(sent, cmds[0]).Pass? && FirstSucceed(db, sent + [cmds[0]], cmds[1..], n - 1)
  {
    var c, rest := cmds[0], cmds[1..];
    assert sent + cmds[..0] == sent;
    forall j | 0 <= j < |rest|
      ensures sent + [c] + rest[..j] == sent + cmds[..j + 1] && rest[j] == cmds[j + 1]
    {
      assert cmds[..j + 1] == [c] + rest[..j];
    }
  }

  /** One statement of a run: a failure ends it, a success continues with the rest. */
  lemma RunAllStep(db: Database, sent: seq<Command>, cmds: seq<Command>)
    requires cmds != []
    ensures var reply := db.execute(sent, cmds[0]);
      RunAll(db, sent, cmds) ==
        if reply.Fail? then Run(sent + [cmds[0]], reply) else RunAll(db, sent + [cmds[0]], cmds[1..])
  {
  }

  /** Once its first i statements have succeeded, a run continues from statement i with them sent. */
  lemma {:induction false} RunAllPrefix(db: Database, start: seq<Command>, cmds: seq<Command>, i: nat)
    requires i <= |cmds|
    requires FirstSucceed(db, start, cmds, i)
    ensures RunAll(db, start, cmds) == RunAll(db, start + cmds[..i], cmds[i..])
  {
    if i == 0 {
      assert start + cmds[..0] == start && cmds[0..] == cmds;
    } else {
      RunAllPrefix(db, start, cmds, i - 1);
      var sent := start + cmds[..i - 1];
      RunAllStep(db, sent, cmds[i - 1..]);
      assert cmds[i - 1..][0] == cmds[i - 1];
      assert cmds[i - 1..][1..] == cmds[i..];
      assert sent + [cmds[i - 1]] == start + cmds[..i];
    }
  }

  /**
   * A run sent one statement at a time, i statements in, with the last reply
   * so far: while every reply passed, the first i statements are sent and
   * succeeded; after a failure, what was sent and the failure are the run's.
   */
  ghost predicate RunSoFar(db: Database, start: seq<Command>, cmds: seq<Command>, i: nat, sent: seq<Command>, reply: Outcome)
  {
    && i <= |cmds|
    && (reply.Pass? ==> sent == start + cmds[..i] && FirstSucceed(db, start, cmds, i))
    && (reply.Fail? ==> RunAll(db, start, cmds) == Run(sent, reply))
  }

  /** Sending statement i after the first i succeeded extends the run by one statement. */
  lemma RunSoFarNext(db: Database, start: seq<Command>, cmds: seq<Command>, i: nat, sent: seq<Command>, reply: Outcome)
    requires i < |cmds| && RunSoFar(db, start, cmds, i, start + cmds[..i], Pass)
    requires sent == start + cmds[..i] + [cmds[i]] && reply == db.execute(start + cmds[..i], cmds[i])
    ensures RunSoFar(db, start, cmds, i + 1, sent, reply)
  {
    assert cmds[..i + 1] == cmds[..i] + [cmds[i]];
    RunAllPrefix(db, start, cmds, i);
    RunAllStep(db, start + cmds[..i], cmds[i..]);
    assert cmds[i..][0] == cmds[i];
  }

  /** A run that has failed, or has sent every statement, is over. */
  lemma RunSoFarDone(db: Database, start: seq<Command>, cmds: seq<Command>, i: nat, sent: seq<Command>, reply: Outcome)
    requires RunSoFar(db, start, cmds, i, sent, reply)
    requires reply.Fail? || i == |cmds|
    ensures RunAll(db, start, cmds) == Run(sent, reply)
  {
    if reply.Pass? {
      RunAllPrefix(db, start, cmds, i);
      assert cmds[..i] == cmds && cmds[i..] == [];
    }
  }

  /** A run succeeds exactly when every statement succeeds, and then it has sent them all. */
  lemma {:induction false} RunAllSucceeds(db: Database, sent: seq<Command>, cmds: seq<Command>)
    ensures RunAll(db, sent, cmds).outcome.Pass? <==> FirstSucceed(db, sent, cmds, |cmds|)
    ensures RunAll(db, sent, cmds).outcome.Pass? ==> RunAll(db, sent, cmds).sent == sent + cmds
    decreases |cmds|
  {
    if cmds != [] {
      FirstSucceedShift(db, sent, cmds, |cmds|);
      RunAllSucceeds(db, sent + [cmds[0]], cmds[1..]);
      assert sent + [cmds[0]] + cmds[1..] == sent + cmds;
    }
  }

  /** A failure m statements into the rest of a run is a failure m + 1 statements into the whole run. */
  lemma FailureShift(db: Database, sent: seq<Command>, c: Command, rest: seq<Command>, run: Run, m: nat)
    requires db.execute(sent, c).Pass?
    requires 0 < m <= |rest|
    requires run.sent == sent + [c] + rest[..m]
    requires run.outcome == db.execute(sent + [c] + rest[..m - 1], rest[m - 1])
    requires FirstSucceed(db, sent + [c], rest, m - 1)
    ensures var cmds := [c] + rest;
      && run.sent == sent + cmds[..m + 1]
      && run.outcome == db.execute(sent + cmds[..m], cmds[m])
      && FirstSucceed(db, sent, cmds, m)
  {
    var cmds := [c] + rest;
    assert cmds[..m + 1] == [c] + rest[..m];
    assert cmds[..m] == [c] + rest[..m - 1];
    assert sent + cmds[..m] == sent + [c] + rest[..m - 1] && cmds[m] == rest[m - 1];
    assert sent + cmds[..m + 1] == sent + [c] + rest[..m];
    assert cmds[1..] == rest;
    FirstSucceedShift(db, sent, cmds, m);
  }

  /**
   * A run that fails has sent the statements up to and including the
   * failing one, each earlier one having succeeded, and reports its reply.
   */
  lemma {:induction false} RunAllStopsAtFirstFailure(db: Database, sent: seq<Command>, cmds: seq<Command>)
    ensures var run := RunAll(db, sent, cmds);
      var n := |run.sent| - |sent|;
      run.outcome.Fail? ==>
        && 0 < n <= |cmds|
        && run.sent == sent + cmds[..n]
        && run.outcome == db.execute(sent + cmds[..n - 1], cmds[n - 1])
        && FirstSucceed(db, sent, cmds, n - 1)
    decreases |cmds|
  {
    if cmds != [] {
      var c, rest := cmds[0], cmds[1..];
      var run := RunAll(db, sent, cmds);
      RunAllStep(db, sent, cmds);
      if db.execute(sent, c).Fail? {
        assert cmds[..1] == [c];
        assert sent + cmds[..0] == sent;
      } else if run.outcome.Fail? {
        assert run == RunAll(db, sent + [c], rest);
        RunAllStopsAtFirstFailure(db, sent + [c], rest);
        assert [c] + rest == cmds;
        FailureShift(db, sent, c, rest, run, |run.sent| - |sent + [c]|);
      }
    }
  }

  /** What a load returns for the query's reply: its rows decoded as the source reads them, or the query's error. */
  function Loaded(rt: Runtime, s: Settings, key: string, reply: Result<seq<Row>>): Result<seq<EventRecord>>
  {
    var rows :- reply;
    DecodeRows(AsWritten, s, rt, key, rows)
  }

  class DbEventStore {
    /** The concrete store type its configuration is registered under. */
    const storeType: TypeInfo
    const registry: ConfigurationRegistry
    const managers: ManagerCache
    const rt: Runtime
    const database: Database
    /** Built over a transaction: the connection belongs to the caller and is never closed here. */
    const overTransaction: bool
    /** The connection is a DbConnection, which closes asynchronously. */
    const asyncClosable: bool
    /** Every command sent over the connection, in order. */
    var sent: seq<Command>
    var disposed: bool

    /** A store over a connection (overTransaction false) or over a transaction's connection (true). */
    constructor (storeType: TypeInfo, registry: ConfigurationRegistry, managers: ManagerCache, rt: Runtime,
                 database: Database, overTransaction: bool, asyncClosable: bool)
      ensures this.storeType == storeType && this.registry == registry && this.managers == managers
      ensures this.rt == rt && this.database == database
      ensures this.overTransaction == overTransaction && this.asyncClosable == asyncClosable
      ensures sent == [] && !disposed
    {
      this.storeType := storeType;
      this.registry := registry;
      this.managers := managers;
      this.rt := rt;
      this.database := database;
      this.overTransaction := overTransaction;
      this.asyncClosable := asyncClosable;
      sent := [];
      disposed := false;
    }

    /**
     * A store over a connection from a factory, chosen by the connection
     * key of the store type's configuration; fails when the type has none.
     */
    static method FromFactory(storeType: TypeInfo, registry: ConfigurationRegistry, managers: ManagerCache,
                              rt: Runtime, factory: Option<string> -> Database, asyncClosable: bool)
      returns (r: Result<DbEventStore>)
      ensures registry.GetForType(storeType).Failure? ==> r == Failure(ConfigurationNotFound)
      ensures registry.GetForType(storeType).Success? ==>
        && r.Success? && fresh(r.value)
        && r.value.database == factory(registry.GetForType(storeType).value.connectionKey)
        && r.value.storeType == storeType && r.value.registry == registry && r.value.managers == managers
        && r.value.rt == rt && !r.value.overTransaction && r.value.asyncClosable == asyncClosable
        && r.value.sent == [] && !r.value.disposed
    {
      var found := registry.GetForType(storeType);
      if found.Failure? {
        return Failure(found.error);
      }
      var store := new DbEventStore(storeType, registry, managers, rt, factory(found.value.connectionKey), false, asyncClosable);
      return Success(store);
    }

    /** The store's configuration, looked up by its type on every use. */
    function CurrentSettings(): (r: Result<Settings>)
      reads registry, registry.entries.Values
      ensures r.Success? <==> storeType in registry.entries
      ensures r.Success? ==> r.value == registry.entries[storeType].Snapshot()
      ensures r.Failure? ==> r.error == ConfigurationNotFound
    {
      var c :- registry.GetForType(storeType);
      Success(c.Snapshot())
    }

    /** Saves one event: a single insert of its row, or no command at all without a configuration. */
    method Save(key: string, event: Event, correlationId: Option<string>) returns (r: Outcome)
      requires managers.Valid()
      modifies this`sent, managers
      ensures managers.Valid()
      ensures old(managers.v1) != null ==> managers.v1 == old(managers.v1)
      ensures CurrentSettings().Failure? ==> r == Fail(ConfigurationNotFound) && sent == old(sent)
      ensures CurrentSettings().Success? ==>
        var cmd := InsertCommand(CurrentSettings().value, rt, key, event, correlationId);
        sent == old(sent) + [cmd] && r == database.execute(old(sent), cmd)
      ensures CurrentSettings().Success? ==> managers.v1 != null
    {
      var found := registry.GetForType(storeType);
      if found.Failure? {
        return Fail(found.error);
      }
      var settings := found.value.Snapshot();
      assert CurrentSettings() == Success(settings);
      var manager := managers.GetInstance(DefaultVersion);
      assert CurrentSettings() == Success(settings);
      var codec := manager.value.codec;
      assert codec == CodecV1;
      var metadata := codec.MetadataOf(event);
      var args := InsertArgs(key, metadata.eventType, rt.writeEvent(event, settings.jsonOptions),
                             rt.writeMetadata(metadata, settings.jsonOptions), codec.Version(), correlationId);
      var cmd := Execute(InsertEvent(settings), args);
      assert cmd == InsertCommand(settings, rt, key, event, correlationId);
      r := database.execute(sent, cmd);
      sent := sent + [cmd];
    }

    /**
     * Saves events one insert at a time, in order, stopping at the first
     * that fails; inserts already made stay made.
     */
    method SaveAll(key: string, events: seq<Event>, correlationId: Option<string>) returns (r: Outcome)
      requires managers.Valid()
      modifies this`sent, managers
      ensures managers.Valid()
      ensures old(managers.v1) != null ==> managers.v1 == old(managers.v1)
      ensures events == [] ==> r == Pass && sent == old(sent)
      ensures events != [] && CurrentSettings().Failure? ==> r == Fail(ConfigurationNotFound) && sent == old(sent)
      ensures CurrentSettings().Success? ==>
        var run := RunAll(database, old(sent), InsertCommands(CurrentSettings().value, rt, key, events, correlationId));
        sent == run.sent && r == run.outcome
    {
      r := Pass;
      ghost var settings := CurrentSettings();
      ghost var cmds := if settings.Success? then InsertCommands(settings.value, rt, key, events, correlationId) else [];
      if settings.Success? {
        assert old(sent) + cmds[..0] == old(sent);
      }
      var i := 0;
      while i < |events| && r.Pass?
        invariant 0 <= i <= |events|
        invariant managers.Valid()
        invariant old(managers.v1) != null ==> managers.v1 == old(managers.v1)
        invariant CurrentSettings() == settings
        invariant settings.Failure? ==> sent == old(sent) && (r.Pass? <==> i == 0) && (r.Fail? ==> r == Fail(ConfigurationNotFound))
        invariant settings.Success? ==> |cmds| == |events| && RunSoFar(database, old(sent), cmds, i, sent, r)
      {
        ghost var before := sent;
        r := Save(key, events[i], correlationId);
        if settings.Success? {
          InsertCommandAt(settings.value, rt, key, events, correlationId, i);
          RunSoFarNext(database, old(sent), cmds, i, sent, r);
        }
        i := i + 1;
      }
      if settings.Success? {
        RunSoFarDone(database, old(sent), cmds, i, sent, r);
      }
    }

    /** Decodes one row as the source reads it, fetching the codec for the row's version from the shared cache. */
    method DecodeOne(s: Settings, key: string, row: Row) returns (r: Result<EventRecord>)
      requires managers.Valid()
      modifies managers
      ensures managers.Valid()
      ensures old(managers.v1) != null ==> managers.v1 == old(managers.v1)
      ensures r == DecodeRowAsWritten(s, rt, key, row)
    {
      var version :- ReadText(AsWritten, rt, row, s.versionColumn);
      if version.None? {
        return Failure(VersionNotSpecified);
      }
      var metadataJson :- ReadText(AsWritten, rt, row, s.metadataColumn);
      if metadataJson.None? {
        return Failure(MetadataNotFound);
      }
      if s.timestampColumn !in row {
        return Failure(ColumnNotFound);
      }
      var timestamp := row[s.timestampColumn];
      if !timestamp.DbDateTime? {
        return Failure(InvalidTimestamp);
      }
      var manager :- managers.GetInstance(version.value);
      var metadata :- manager.codec.ReadMetadata(rt, metadataJson.value, s.jsonOptions);
      if metadata.None? {
        return Failure(MetadataUnreadable);
      }
      var payloadJson :- ReadText(AsWritten, rt, row, s.payloadColumn);
      if payloadJson.None? {
        return Failure(PayloadNotFound);
      }
      var payload :- manager.codec.DecodePayload(rt, payloadJson.value, metadata.value, s.jsonOptions);
      if s.idColumn !in row {
        return Failure(ColumnNotFound);
      }
      var correlationId :- ReadText(AsWritten, rt, row, s.correlationIdColumn);
      r := Success(EventRecord(CoerceId(row[s.idColumn]), key, metadata.value.eventType, payload, metadata.value,
                               timestamp.ticks, version.value, correlationId));
    }

    /**
     * Loads the records stored under a key: one select ordered by id, then
     * every row decoded in order; the first row that fails fails the load.
     */
    method LoadRecords(key: string) returns (r: Result<seq<EventRecord>>)
      requires managers.Valid()
      modifies this`sent, managers
      ensures managers.Valid()
      ensures old(managers.v1) != null ==> managers.v1 == old(managers.v1)
      ensures CurrentSettings().Failure? ==> r == Failure(ConfigurationNotFound) && sent == old(sent)
      ensures CurrentSettings().Success? ==>
        var cmd := Query(SelectByKey(CurrentSettings().value), key);
        sent == old(sent) + [cmd] && r == Loaded(rt, CurrentSettings().value, key, database.query(old(sent), cmd))
    {
      var found := registry.GetForType(storeType);
      if found.Failure? {
        return Failure(found.error);
      }
      var settings := found.value.Snapshot();
      var cmd := Query(SelectByKey(settings), key);
      var reply := database.query(sent, cmd);
      sent := sent + [cmd];
      if reply.Failure? {
        return Failure(reply.error);
      }
      var rows := reply.value;
      var records: seq<EventRecord> := [];
      var i := 0;
      while i < |rows|
        invariant 0 <= i <= |rows| && |records| == i
        invariant managers.Valid() && sent == old(sent) + [cmd]
        invariant old(managers.v1) != null ==> managers.v1 == old(managers.v1)
        invariant forall j :: 0 <= j < i ==> DecodeRowUsing(AsWritten, settings, rt, key, rows[j]) == Success(records[j])
      {
        var record := DecodeOne(settings, key, rows[i]);
        if record.Failure? {
          DecodeRowsFirstFailure(AsWritten, settings, rt, key, rows, i);
          return Failure(record.error);
        }
        records := records + [record.value];
        i := i + 1;
      }
      DecodeRowsAllDecoded(AsWritten, settings, rt, key, rows, records);
      r := Success(records);
    }

    /** Loads the events stored under a key: the payloads of its records, in order. */
    method LoadEvents(key: string) returns (r: Result<seq<Event>>)
      requires managers.Valid()
      modifies this`sent, managers
      ensures managers.Valid()
      ensures old(managers.v1) != null ==> managers.v1 == old(managers.v1)
      ensures CurrentSettings().Failure? ==> r == Failure(ConfigurationNotFound) && sent == old(sent)
      ensures CurrentSettings().Success? ==>
        var cmd := Query(SelectByKey(CurrentSettings().value), key);
        sent == old(sent) + [cmd] &&
        r == (var records :- Loaded(rt, CurrentSettings().value, key, database.query(old(sent), cmd));
              Success(Payloads(records)))
    {
      var records := LoadRecords(key);
      if records.Failure? {
        return Failure(records.error);
      }
      r := Success(Payloads(records.value));
    }

    /**
     * Closes the connection on the first call made while disposing, unless
     * the store runs over a caller's transaction; later calls do nothing.
     */
    method Dispose(disposing: bool)
      modifies this`sent, this`disposed
      ensures disposed
      ensures sent == if !old(disposed) && disposing && !overTransaction then old(sent) + [CloseConnection] else old(sent)
    {
      if disposed {
        return;
      }
      if disposing && !overTransaction {
        sent := sent + [CloseConnection];
      }
      disposed := true;
    }

    /** As Dispose, closing a DbConnection asynchronously and any other connection synchronously. */
    method DisposeAsync(disposing: bool)
      modifies this`sent, this`disposed
      ensures disposed
      ensures sent == if !old(disposed) && disposing && !overTransaction
                      then old(sent) + [if asyncClosable then CloseConnectionAsync else CloseConnection]
                      else old(sent)
    {
      if disposed {
        return;
      }
      if disposing && !overTransaction {
        if asyncClosable {
          sent := sent + [CloseConnectionAsync];
        } else {
          sent := sent + [CloseConnection];
        }
      }
      disposed := true;
    }
  }
}
