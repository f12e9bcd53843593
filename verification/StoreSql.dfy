/**
 * The SQL text the event store sends: the comma-separated column lists, the
 * insert statement with its fixed value list, the select statement, and the
 * parameters bound to an insert.
 */
module StoreSql {
  import opened Common
  import opened Platform
  import opened StoreConfiguration
  import V1 = RecordManagerV1

  const Separator: string := ", "

  /** string.Join with ", " */
  function Join(parts: seq<string>): string
  {
    if parts == [] then []
    else if |parts| == 1 then parts[0]
    else parts[0] + Separator + Join(parts[1..])
  }

  /** The index of the first comma, or |s| when there is none. */
  function CommaIndex(s: string): (i: nat)
    ensures i <= |s|
    ensures i < |s| ==> s[i] == ','
    ensures forall j :: 0 <= j < i ==> s[j] != ','
  {
    if s == [] || s[0] == ',' then 0 else 1 + CommaIndex(s[1..])
  }

  /** Splits a list at its commas, dropping one space after each comma: the reading of a Join. */
  function Split(s: string): seq<string>
    decreases |s|
  {
    var i := CommaIndex(s);
    if i == |s| then [s]
    else
      var rest := s[i + 1..];
      [s[..i]] + Split(if rest != [] && rest[0] == ' ' then rest[1..] else rest)
  }

  lemma {:induction false} CommaIndexAppend(a: string, b: string)
    requires ',' !in a
    ensures CommaIndex(a + b) == |a| + CommaIndex(b)
    decreases |a|
  {
    if a == [] {
      assert a + b == b;
    } else {
      assert a[0] in a;
      assert (a + b)[1..] == a[1..] + b;
      assert forall c :: c in a[1..] ==> c in a;
      CommaIndexAppend(a[1..], b);
    }
  }

  /** Joined names that contain no comma split back into the same names. */
  lemma {:induction false} SplitJoin(parts: seq<string>)
    requires parts != []
    requires forall k :: 0 <= k < |parts| ==> ',' !in parts[k]
    ensures Split(Join(parts)) == parts
    decreases |parts|
  {
    var p := parts[0];
    if |parts| == 1 {
      CommaIndexAppend(p, []);
      assert p + [] == p;
    } else {
      var tail := Join(parts[1..]);
      var after := Separator + tail;
      var s := p + after;
      assert Join(parts) == s;
      assert after[0] == ',';
      assert CommaIndex(after) == 0;
      CommaIndexAppend(p, after);
      assert s[..|p|] == p;
      var rest := s[|p| + 1..];
      assert rest == after[1..];
      assert rest[0] == ' ' && rest[1..] == tail;
      assert Split(s) == [p] + Split(tail);
      SplitJoin(parts[1..]);
      assert [p] + parts[1..] == parts;
    }
  }

  /** The eight columns an insert names, in the order of its value list. */
  function InsertColumns(s: Settings): (cols: seq<string>)
    ensures |cols| == 8
  {
    [s.idColumn, s.keyColumn, s.typeColumn, s.payloadColumn, s.metadataColumn,
     s.timestampColumn, s.versionColumn, s.correlationIdColumn]
  }

  /** The insert's fixed value entries: the id and the timestamp take the column default. */
  const InsertValueParts: seq<string> :=
    ["default", "@Key", "@Type", "@Payload", "@Metadata", "default", "@Version", "@CorrelationId"]

  /** The insert's value list, "default, @Key, ..., @CorrelationId". */
  const InsertValues: string := Join(InsertValueParts)

  /** The columns a select reads back: every inserted column except the key it filters on. */
  function SelectColumns(s: Settings): (cols: seq<string>)
    ensures cols == InsertColumns(s)[..1] + InsertColumns(s)[2..]
  {
    [s.idColumn, s.typeColumn, s.payloadColumn, s.metadataColumn,
     s.timestampColumn, s.versionColumn, s.correlationIdColumn]
  }

  /** No configured column name contains a comma. */
  predicate PlainColumns(s: Settings)
  {
    forall k :: 0 <= k < |InsertColumns(s)| ==> ',' !in InsertColumns(s)[k]
  }

  /**
   * The insert's column list and value list align: both split into eight
   * entries, so the i-th value binds the i-th column.
   */
  lemma InsertListsAlign(s: Settings)
    requires PlainColumns(s)
    ensures Split(Join(InsertColumns(s))) == InsertColumns(s)
    ensures Split(InsertValues) == InsertValueParts
    ensures |InsertColumns(s)| == |InsertValueParts|
  {
    SplitJoin(InsertColumns(s));
    InsertValuesSplit();
  }

  /** Exactly the id and timestamp positions take the database default. */
  lemma DefaultedColumns(s: Settings)
    ensures forall k :: 0 <= k < |InsertValueParts| ==> (InsertValueParts[k] == "default" <==> k == 0 || k == 5)
    ensures InsertColumns(s)[0] == s.idColumn && InsertColumns(s)[5] == s.timestampColumn
  {
  }

  lemma InsertValuesSplit()
    ensures Split(InsertValues) == InsertValueParts
  {
    var parts := InsertValueParts;
    forall k | 0 <= k < |parts|
      ensures ',' !in parts[k]
    {
    }
    SplitJoin(parts);
  }

  /** The select's column list reads back as the seven selected columns. */
  lemma SelectListSplits(s: Settings)
    requires PlainColumns(s)
    ensures Split(Join(SelectColumns(s))) == SelectColumns(s)
    ensures |Split(Join(SelectColumns(s)))| == 7
  {
    var cols := SelectColumns(s);
    forall k | 0 <= k < |cols|
      ensures ',' !in cols[k]
    {
      if k == 0 { assert cols[k] == InsertColumns(s)[0]; }
      else { assert cols[k] == InsertColumns(s)[k + 1]; }
    }
    SplitJoin(cols);
  }

  /** The insert statement: the eight columns of the configured table, then the fixed value list. */
  function InsertSql(s: Settings): string
  {
    "insert into " + TableFqn(s) + " (" + Join(InsertColumns(s)) + ") values (" + InsertValues + ")"
  }

  /** The select statement: the seven columns read back, for one key, in id order. */
  function SelectSql(s: Settings): string
  {
    "select " + Join(SelectColumns(s)) + " from " + TableFqn(s) + " where " + s.keyColumn + " = @Key order by " + s.idColumn
  }

  /**
   * The insert reads back in three parts: it opens on the configured table,
   * its column list follows in parentheses, and it closes with the fixed
   * value list.
   */
  lemma InsertStatementShape(s: Settings)
    ensures var sql, head, tail := InsertSql(s), "insert into " + TableFqn(s) + " (", ") values (" + InsertValues + ")";
            && |head| + |tail| <= |sql|
            && sql[..|head|] == head
            && sql[|head|..|sql| - |tail|] == Join(InsertColumns(s))
            && sql[|sql| - |tail|..] == tail
  {
    var head, cols, tail := "insert into " + TableFqn(s) + " (", Join(InsertColumns(s)), ") values (" + InsertValues + ")";
    assert InsertSql(s) == head + cols + tail;
  }

  /**
   * The select reads back in three parts: it opens on the selected column
   * list, reads from the configured table, and closes by filtering on the
   * key column and ordering by the id column.
   */
  lemma SelectStatementShape(s: Settings)
    ensures var sql, filter := SelectSql(s), " where " + s.keyColumn + " = @Key order by " + s.idColumn;
            var cols := Join(SelectColumns(s));
            && 7 + |cols| + |filter| <= |sql|
            && sql[..7] == "select "
            && sql[7..7 + |cols|] == cols
            && sql[7 + |cols|..|sql| - |filter|] == " from " + TableFqn(s)
            && sql[|sql| - |filter|..] == filter
  {
    var cols, from, filter := Join(SelectColumns(s)), " from " + TableFqn(s), " where " + s.keyColumn + " = @Key order by " + s.idColumn;
    assert SelectSql(s) == "select " + cols + from + filter;
  }

  /** A statement the store sends, identified by the configuration its text is built from. */
  datatype Statement = InsertEvent(settings: Settings) | SelectByKey(settings: Settings)
  {
    /** The statement's SQL text: an insert or a select over the statement's configuration. */
    function Text(): (sql: string)
      ensures InsertEvent? ==> |sql| >= 12 && sql[..12] == "insert into "
      ensures SelectByKey? ==> |sql| >= 7 && sql[..7] == "select "
    {
      match this
      case InsertEvent(s) => InsertSql(s)
      case SelectByKey(s) => SelectSql(s)
    }
  }

  /** The parameters bound to an insert. */
  datatype InsertArgs = InsertArgs(
    key: string,
    eventType: string,
    payload: string,
    metadata: string,
    version: string,
    correlationId: Option<string>)

  /** The parameters for saving one event under a key: the codec's metadata, both JSON texts and the codec version. */
  function InsertArgsFor(s: Settings, rt: Runtime, key: string, event: Event, correlationId: Option<string>): InsertArgs
  {
    var metadata := V1.MetadataOf(event);
    InsertArgs(key, metadata.eventType, rt.writeEvent(event, s.jsonOptions),
               rt.writeMetadata(metadata, s.jsonOptions), V1.Version, correlationId)
  }

  /**
   * What an insert binds: the key and correlation id as given, the event's
   * short type name, both JSON texts and the codec version.
   */
  lemma InsertArgsBinding(s: Settings, rt: Runtime, key: string, event: Event, correlationId: Option<string>)
    ensures var a := InsertArgsFor(s, rt, key, event, correlationId);
      && a.key == key && a.correlationId == correlationId
      && a.eventType == event.typeInfo.name
      && a.payload == rt.writeEvent(event, s.jsonOptions)
      && a.metadata == rt.writeMetadata(V1.MetadataOf(event), s.jsonOptions)
      && a.version == V1.Version
  {
  }
}
