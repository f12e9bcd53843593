/**
 * Turning the rows a load query returns into event records: the per-row
 * checks in their fixed order, the id coercion, the all-or-nothing decoding
 * of a result set, and the round trip from a saved event to its record.
 */
module StoreRows {
  import opened Common
  import opened Platform
  import opened StoreConfiguration
  import opened StoreSql
  import RecordManager
  import V1 = RecordManagerV1

  /** A result row keyed by column name. */
  type Row = map<string, DbValue>

  datatype EventRecord = EventRecord(
    id: int,
    key: string,
    eventType: string,
    payload: Event,
    metadata: Metadata,
    timestamp: int,
    version: string,
    correlationId: Option<string>)

  /**
   * How a column becomes text: AsWritten calls ToString on the value, which
   * raises on SQL NULL; NullSafe treats SQL NULL as absent, which is what
   * the null checks after each read expect.
   */
  datatype Reading = AsWritten | NullSafe

  /** The text of one column of a row. */
  function ReadText(mode: Reading, rt: Runtime, row: Row, column: string): (r: Result<Option<string>>)
    ensures column !in row ==> r == Failure(ColumnNotFound)
    ensures column in row && row[column] == DbNull ==>
      r == if mode.AsWritten? then Failure(NullReference) else Success(None)
    ensures column in row && row[column].DbText? ==> r == Success(Some(row[column].text))
    ensures (r.Success? && r.value.None?) <==> (mode.NullSafe? && column in row && row[column] == DbNull)
  {
    if column !in row then Failure(ColumnNotFound)
    else match row[column]
      case DbNull => if mode.AsWritten? then Failure(NullReference) else Success(None)
      case DbText(t) => Success(Some(t))
      case _ => Success(Some(rt.show(row[column])))
  }

  /** The record id: a 64-, 32- or 16-bit integer keeps its value; anything else becomes 0. */
  function CoerceId(v: DbValue): (id: int)
    ensures (v.DbInt64? || v.DbInt32? || v.DbInt16?) ==> id == v.n
    ensures !(v.DbInt64? || v.DbInt32? || v.DbInt16?) ==> id == 0
  {
    match v
    case DbInt64(n) => n
    case DbInt32(n) => n
    case DbInt16(n) => n
    case _ => 0
  }

  /**
   * Decodes one row read under the key: version text, metadata text,
   * timestamp, codec for the version, metadata, payload text, payload, id
   * and correlation id, failing at the first check that does not hold.
   */
  function DecodeRowUsing(mode: Reading, s: Settings, rt: Runtime, key: string, row: Row): (r: Result<EventRecord>)
    ensures r.Success? ==>
      && r.value.key == key
      && r.value.eventType == r.value.metadata.eventType
      && RecordManager.Dispatch(r.value.version).Success?
      && s.versionColumn in row && s.metadataColumn in row && s.payloadColumn in row
      && row[s.versionColumn] != DbNull && row[s.metadataColumn] != DbNull && row[s.payloadColumn] != DbNull
      && s.timestampColumn in row && row[s.timestampColumn] == DbDateTime(r.value.timestamp)
      && s.idColumn in row && r.value.id == CoerceId(row[s.idColumn])
      && s.correlationIdColumn in row
      && (r.value.correlationId.None? <==> row[s.correlationIdColumn] == DbNull)
  {
    var version :- ReadText(mode, rt, row, s.versionColumn);
    if version.None? then Failure(VersionNotSpecified) else
    var metadataJson :- ReadText(mode, rt, row, s.metadataColumn);
    if metadataJson.None? then Failure(MetadataNotFound) else
    if s.timestampColumn !in row then Failure(ColumnNotFound) else
    if !row[s.timestampColumn].DbDateTime? then Failure(InvalidTimestamp) else
    var codec :- RecordManager.Dispatch(version.value);
    var metadata :- codec.ReadMetadata(rt, metadataJson.value, s.jsonOptions);
    if metadata.None? then Failure(MetadataUnreadable) else
    var payloadJson :- ReadText(mode, rt, row, s.payloadColumn);
    if payloadJson.None? then Failure(PayloadNotFound) else
    var payload :- codec.DecodePayload(rt, payloadJson.value, metadata.value, s.jsonOptions);
    if s.idColumn !in row then Failure(ColumnNotFound) else
    var correlationId :- ReadText(mode, rt, row, s.correlationIdColumn);
    Success(EventRecord(CoerceId(row[s.idColumn]), key, metadata.value.eventType, payload, metadata.value,
                        row[s.timestampColumn].ticks, version.value, correlationId))
  }

  /**
   * The row decoding the null checks intend: SQL NULL is absent rather than
   * an exception, so no row fails with a null reference.
   */
  function DecodeRow(s: Settings, rt: Runtime, key: string, row: Row): (r: Result<EventRecord>)
    ensures r.Failure? ==> r.error != NullReference
  {
    DecodeRowUsing(NullSafe, s, rt, key, row)
  }

  /**
   * The row decoding as the source writes it: a row decodes only when none
   * of its text columns is NULL, and the checks for a missing version,
   * metadata or payload never fire.
   */
  function DecodeRowAsWritten(s: Settings, rt: Runtime, key: string, row: Row): (r: Result<EventRecord>)
    ensures r.Success? ==>
      forall c :: c in [s.versionColumn, s.metadataColumn, s.payloadColumn, s.correlationIdColumn] ==>
        c in row && row[c] != DbNull
    ensures r.Failure? ==> r.error !in {VersionNotSpecified, MetadataNotFound, PayloadNotFound}
  {
    DecodeRowUsing(AsWritten, s, rt, key, row)
  }

  /** The two readings agree on a row with no NULL column. */
  lemma ReadingsAgree(s: Settings, rt: Runtime, key: string, row: Row)
    requires forall c :: c in row ==> row[c] != DbNull
    ensures DecodeRowAsWritten(s, rt, key, row) == DecodeRow(s, rt, key, row)
  {
    forall c ensures ReadText(AsWritten, rt, row, c) == ReadText(NullSafe, rt, row, c) {
    }
  }

  /**
   * The checks run in a fixed order: each failure below wins over every
   * check after it, whatever the rest of the row holds. A NULL version or
   * metadata column reaches its check only null-safe; the timestamp and
   * version checks run in this order under either reading.
   */
  lemma ValidationOrder(mode: Reading, s: Settings, rt: Runtime, key: string, row: Row)
    ensures s.versionColumn in row && row[s.versionColumn] == DbNull ==>
      DecodeRow(s, rt, key, row) == Failure(VersionNotSpecified)
    ensures s.versionColumn in row && row[s.versionColumn] != DbNull &&
            s.metadataColumn in row && row[s.metadataColumn] == DbNull ==>
      DecodeRow(s, rt, key, row) == Failure(MetadataNotFound)
    ensures s.versionColumn in row && row[s.versionColumn] != DbNull &&
            s.metadataColumn in row && row[s.metadataColumn] != DbNull &&
            s.timestampColumn in row && !row[s.timestampColumn].DbDateTime? ==>
      DecodeRowUsing(mode, s, rt, key, row) == Failure(InvalidTimestamp)
    ensures s.versionColumn in row && row[s.versionColumn].DbText? && row[s.versionColumn].text != V1.Version &&
            s.metadataColumn in row && row[s.metadataColumn] != DbNull &&
            s.timestampColumn in row && row[s.timestampColumn].DbDateTime? ==>
      DecodeRowUsing(mode, s, rt, key, row) == Failure(VersionNotSupported)
  {
  }

  /** A row whose version is "1.0", whose metadata column holds the given text and whose timestamp is a DateTime. */
  predicate PassesHeader(s: Settings, row: Row, metadataJson: string)
  {
    && s.versionColumn in row && row[s.versionColumn] == DbText(V1.Version)
    && s.metadataColumn in row && row[s.metadataColumn] == DbText(metadataJson)
    && s.timestampColumn in row && row[s.timestampColumn].DbDateTime?
  }

  /**
   * The later checks, in order: under either reading, unreadable metadata
   * text fails before the payload is looked at; null-safe, a NULL payload
   * fails before its type is resolved.
   */
  lemma MetadataPayloadOrder(mode: Reading, s: Settings, rt: Runtime, key: string, row: Row, metadataJson: string)
    requires PassesHeader(s, row, metadataJson)
    ensures rt.readMetadata(metadataJson, s.jsonOptions).Malformed? ==>
      DecodeRowUsing(mode, s, rt, key, row) == Failure(MalformedJson)
    ensures rt.readMetadata(metadataJson, s.jsonOptions).DecodedNull? ==>
      DecodeRowUsing(mode, s, rt, key, row) == Failure(MetadataUnreadable)
    ensures rt.readMetadata(metadataJson, s.jsonOptions).Decoded? &&
            s.payloadColumn in row && row[s.payloadColumn] == DbNull ==>
      DecodeRow(s, rt, key, row) == Failure(PayloadNotFound)
  {
  }

  /**
   * As written, a NULL version, metadata or payload column raises a null
   * reference where the check after it meant to report it.
   */
  lemma AsWrittenNullRaises(s: Settings, rt: Runtime, key: string, row: Row, metadataJson: string)
    ensures s.versionColumn in row && row[s.versionColumn] == DbNull ==>
      DecodeRowAsWritten(s, rt, key, row) == Failure(NullReference)
    ensures s.versionColumn in row && row[s.versionColumn] != DbNull &&
            s.metadataColumn in row && row[s.metadataColumn] == DbNull ==>
      DecodeRowAsWritten(s, rt, key, row) == Failure(NullReference)
    ensures PassesHeader(s, row, metadataJson) && rt.readMetadata(metadataJson, s.jsonOptions).Decoded? &&
            s.payloadColumn in row && row[s.payloadColumn] == DbNull ==>
      DecodeRowAsWritten(s, rt, key, row) == Failure(NullReference)
  {
  }

  /** Decodes a result set in row order; the first row that fails fails the whole load. */
  function DecodeRows(mode: Reading, s: Settings, rt: Runtime, key: string, rows: seq<Row>): Result<seq<EventRecord>>
  {
    if rows == [] then Success([])
    else
      var first :- DecodeRowUsing(mode, s, rt, key, rows[0]);
      var rest :- DecodeRows(mode, s, rt, key, rows[1..]);
      Success([first] + rest)
  }

  /** A successful load holds exactly one record per row, each the decoding of its row, in row order. */
  lemma {:induction false} DecodeRowsSucceeds(mode: Reading, s: Settings, rt: Runtime, key: string, rows: seq<Row>)
    ensures DecodeRows(mode, s, rt, key, rows).Success? ==>
      var records := DecodeRows(mode, s, rt, key, rows).value;
      |records| == |rows| &&
      forall j :: 0 <= j < |rows| ==> DecodeRowUsing(mode, s, rt, key, rows[j]) == Success(records[j])
    decreases |rows|
  {
    if rows != [] && DecodeRows(mode, s, rt, key, rows).Success? {
      DecodeRowsSucceeds(mode, s, rt, key, rows[1..]);
      var records := DecodeRows(mode, s, rt, key, rows).value;
      assert records[1..] == DecodeRows(mode, s, rt, key, rows[1..]).value;
      forall j | 0 < j < |rows|
        ensures DecodeRowUsing(mode, s, rt, key, rows[j]) == Success(records[j])
      {
        assert rows[j] == rows[1..][j - 1];
      }
    }
  }

  /** When every row decodes, the load returns their records in row order. */
  lemma {:induction false} DecodeRowsAllDecoded(mode: Reading, s: Settings, rt: Runtime, key: string,
                                                rows: seq<Row>, records: seq<EventRecord>)
    requires |records| == |rows|
    requires forall j :: 0 <= j < |rows| ==> DecodeRowUsing(mode, s, rt, key, rows[j]) == Success(records[j])
    ensures DecodeRows(mode, s, rt, key, rows) == Success(records)
    decreases |rows|
  {
    if rows != [] {
      forall j | 0 <= j < |rows| - 1
        ensures DecodeRowUsing(mode, s, rt, key, rows[1..][j]) == Success(records[1..][j])
      {
        assert rows[1..][j] == rows[j + 1];
      }
      DecodeRowsAllDecoded(mode, s, rt, key, rows[1..], records[1..]);
      assert DecodeRowUsing(mode, s, rt, key, rows[0]) == Success(records[0]);
      assert [records[0]] + records[1..] == records;
    }
  }

  /** The first row that does not decode decides the load's error, whatever follows it. */
  lemma {:induction false} DecodeRowsFirstFailure(mode: Reading, s: Settings, rt: Runtime, key: string,
                                                  rows: seq<Row>, i: nat)
    requires i < |rows|
    requires forall j :: 0 <= j < i ==> DecodeRowUsing(mode, s, rt, key, rows[j]).Success?
    requires DecodeRowUsing(mode, s, rt, key, rows[i]).Failure?
    ensures DecodeRows(mode, s, rt, key, rows) == Failure(DecodeRowUsing(mode, s, rt, key, rows[i]).error)
    decreases i
  {
    if i > 0 {
      assert DecodeRowUsing(mode, s, rt, key, rows[0]).Success?;
      forall j | 0 <= j < i - 1
        ensures DecodeRowUsing(mode, s, rt, key, rows[1..][j]).Success?
      {
        assert rows[1..][j] == rows[j + 1];
      }
      assert rows[1..][i - 1] == rows[i];
      DecodeRowsFirstFailure(mode, s, rt, key, rows[1..], i - 1);
    }
  }

  /** The payloads of a list of records, in order. */
  function Payloads(records: seq<EventRecord>): (events: seq<Event>)
    ensures |events| == |records|
    ensures forall j :: 0 <= j < |records| ==> events[j] == records[j].payload
  {
    seq(|records|, j requires 0 <= j < |records| => records[j].payload)
  }

  /** The eight columns are pairwise distinct, as an insert naming them all requires. */
  predicate DistinctColumns(s: Settings)
  {
    forall i, j :: 0 <= i < j < |InsertColumns(s)| ==> InsertColumns(s)[i] != InsertColumns(s)[j]
  }

  lemma DistinctFields(s: Settings)
    requires DistinctColumns(s)
    ensures s.idColumn !in {s.typeColumn, s.payloadColumn, s.metadataColumn, s.timestampColumn, s.versionColumn, s.correlationIdColumn}
    ensures s.typeColumn !in {s.payloadColumn, s.metadataColumn, s.timestampColumn, s.versionColumn, s.correlationIdColumn}
    ensures s.payloadColumn !in {s.metadataColumn, s.timestampColumn, s.versionColumn, s.correlationIdColumn}
    ensures s.metadataColumn !in {s.timestampColumn, s.versionColumn, s.correlationIdColumn}
    ensures s.timestampColumn !in {s.versionColumn, s.correlationIdColumn}
    ensures s.versionColumn != s.correlationIdColumn
  {
    var c := InsertColumns(s);
    assert c[0] == s.idColumn && c[2] == s.typeColumn && c[3] == s.payloadColumn && c[4] == s.metadataColumn;
    assert c[5] == s.timestampColumn && c[6] == s.versionColumn && c[7] == s.correlationIdColumn;
  }

  /**
   * The row the load query returns for a stored insert: the selected columns,
   * with the id and timestamp the database assigned and SQL NULL for an
   * absent correlation id.
   */
  function StoredRow(s: Settings, args: InsertArgs, id: int, ticks: int): (row: Row)
    requires DistinctColumns(s)
    ensures row.Keys == {s.idColumn, s.typeColumn, s.payloadColumn, s.metadataColumn,
                         s.timestampColumn, s.versionColumn, s.correlationIdColumn}
    ensures row[s.idColumn] == DbInt64(id)
    ensures row[s.typeColumn] == DbText(args.eventType)
    ensures row[s.payloadColumn] == DbText(args.payload)
    ensures row[s.metadataColumn] == DbText(args.metadata)
    ensures row[s.timestampColumn] == DbDateTime(ticks)
    ensures row[s.versionColumn] == DbText(args.version)
    ensures row[s.correlationIdColumn] == (if args.correlationId.Some? then DbText(args.correlationId.value) else DbNull)
  {
    DistinctFields(s);
    map[s.idColumn := DbInt64(id),
        s.typeColumn := DbText(args.eventType),
        s.payloadColumn := DbText(args.payload),
        s.metadataColumn := DbText(args.metadata),
        s.timestampColumn := DbDateTime(ticks),
        s.versionColumn := DbText(args.version),
        s.correlationIdColumn := if args.correlationId.Some? then DbText(args.correlationId.value) else DbNull]
  }

  /** What the JSON layer must do for an event to survive storage: both texts read back, and its type resolves. */
  predicate Restores(rt: Runtime, options: Option<JsonOptions>, event: Event)
  {
    && rt.readMetadata(rt.writeMetadata(V1.MetadataOf(event), options), options) == Decoded(V1.MetadataOf(event))
    && rt.resolveType(event.typeInfo.fullName) == Some(event.typeInfo)
    && rt.readPayload(rt.writeEvent(event, options), event.typeInfo, options) == Decoded(event)
    && rt.isEvent(event.typeInfo)
  }

  /** The version every save writes is one the load accepts. */
  lemma SavedVersionLoadable(s: Settings, rt: Runtime, key: string, event: Event, correlationId: Option<string>)
    ensures RecordManager.Dispatch(InsertArgsFor(s, rt, key, event, correlationId).version) == Success(RecordManager.CodecV1)
    ensures InsertArgsFor(s, rt, key, event, correlationId).version == RecordManager.DefaultVersion
  {
  }

  /**
   * Save then load: the row stored for an event decodes to a record of that
   * event under the same key, with its type name, metadata, the codec
   * version, the assigned id and timestamp, and the correlation id given.
   * Null-safe this holds for every save; as written, only for a save that
   * gives a correlation id.
   */
  lemma SaveLoadRoundTrip(mode: Reading, s: Settings, rt: Runtime, key: string, event: Event,
                          correlationId: Option<string>, id: int, ticks: int)
    requires DistinctColumns(s)
    requires Restores(rt, s.jsonOptions, event)
    requires mode.NullSafe? || correlationId.Some?
    ensures DecodeRowUsing(mode, s, rt, key, StoredRow(s, InsertArgsFor(s, rt, key, event, correlationId), id, ticks))
         == Success(EventRecord(id, key, event.typeInfo.name, event, V1.MetadataOf(event), ticks, V1.Version, correlationId))
  {
    V1.PayloadRoundTrip(rt, event, s.jsonOptions);
  }

  /**
   * The events saved under a key load back in order: the rows stored for
   * them, in id order, decode to records whose payloads are those events.
   */
  lemma {:induction false} SavedEventsLoadInOrder(mode: Reading, s: Settings, rt: Runtime, key: string,
                                                  events: seq<Event>, correlationId: Option<string>,
                                                  ids: seq<int>, stamps: seq<int>)
    requires DistinctColumns(s)
    requires |ids| == |events| && |stamps| == |events|
    requires forall j :: 0 <= j < |events| ==> Restores(rt, s.jsonOptions, events[j])
    requires mode.NullSafe? || correlationId.Some?
    ensures var rows := seq(|events|, j requires 0 <= j < |events| =>
                              StoredRow(s, InsertArgsFor(s, rt, key, events[j], correlationId), ids[j], stamps[j]));
            var loaded := DecodeRows(mode, s, rt, key, rows);
            loaded.Success? && Payloads(loaded.value) == events
  {
    var rows := seq(|events|, j requires 0 <= j < |events| =>
                      StoredRow(s, InsertArgsFor(s, rt, key, events[j], correlationId), ids[j], stamps[j]));
    var records := seq(|events|, j requires 0 <= j < |events| =>
                         EventRecord(ids[j], key, events[j].typeInfo.name, events[j], V1.MetadataOf(events[j]),
                                     stamps[j], V1.Version, correlationId));
    forall j | 0 <= j < |rows|
      ensures DecodeRowUsing(mode, s, rt, key, rows[j]) == Success(records[j])
    {
      SaveLoadRoundTrip(mode, s, rt, key, events[j], correlationId, ids[j], stamps[j]);
    }
    DecodeRowsAllDecoded(mode, s, rt, key, rows, records);
    assert Payloads(records) == events;
  }

  /**
   * As written, the row stored for an event saved without a correlation id
   * cannot be loaded: reading its NULL correlation id raises, although the
   * null-safe reading decodes the same row.
   */
  lemma AsWrittenRejectsUncorrelated(s: Settings, rt: Runtime, key: string, event: Event, id: int, ticks: int)
    requires DistinctColumns(s)
    requires Restores(rt, s.jsonOptions, event)
    ensures var row := StoredRow(s, InsertArgsFor(s, rt, key, event, None), id, ticks);
            DecodeRowAsWritten(s, rt, key, row) == Failure(NullReference) &&
            DecodeRow(s, rt, key, row).Success?
  {
    SaveLoadRoundTrip(NullSafe, s, rt, key, event, None, id, ticks);
  }
}
