/**
 * The event store configuration (connection key, target table and the eight
 * column names) and the registry that maps each store type to its
 * configuration.
 */
module StoreConfiguration {
  import opened Common
  import opened Platform

  /** A snapshot of every property of a configuration. */
  datatype Settings = Settings(
    connectionKey: Option<string>,
    targetSchema: Option<string>,
    targetTable: string,
    idColumn: string,
    keyColumn: string,
    typeColumn: string,
    payloadColumn: string,
    metadataColumn: string,
    timestampColumn: string,
    versionColumn: string,
    correlationIdColumn: string,
    jsonOptions: Option<JsonOptions>)

  /** The constructor's default arguments. */
  const Defaults: Settings := Settings(
    None, None, "event",
    "id", "key", "type", "payload", "metadata", "timestamp", "version", "correlationId",
    None)

  /** The table name, qualified by the schema when one is set. */
  function TableFqn(s: Settings): string
  {
    (if s.targetSchema.Some? then s.targetSchema.value + "." else "") + s.targetTable
  }

  /** The qualified name ends with the table; a schema, when set, comes first, followed by a dot. */
  lemma TableFqnShape(s: Settings)
    ensures var fqn := TableFqn(s);
      && |fqn| >= |s.targetTable| && fqn[|fqn| - |s.targetTable|..] == s.targetTable
      && (s.targetSchema.None? ==> fqn == s.targetTable)
      && (s.targetSchema.Some? ==>
            var schema := s.targetSchema.value;
            |fqn| == |schema| + 1 + |s.targetTable| && fqn[..|schema|] == schema && fqn[|schema|] == '.')
  {
  }

  lemma DefaultTargetTable()
    ensures TableFqn(Defaults) == "event"
  {
  }

  class Configuration {
    var connectionKey: Option<string>
    var targetSchema: Option<string>
    var targetTable: string
    var idColumn: string
    var keyColumn: string
    var typeColumn: string
    var payloadColumn: string
    var metadataColumn: string
    var timestampColumn: string
    var versionColumn: string
    var correlationIdColumn: string
    var jsonOptions: Option<JsonOptions>

    function Snapshot(): Settings
      reads this
    {
      Settings(connectionKey, targetSchema, targetTable, idColumn, keyColumn, typeColumn,
               payloadColumn, metadataColumn, timestampColumn, versionColumn, correlationIdColumn,
               jsonOptions)
    }

    /** A configuration with the given properties; Defaults gives the constructor's default arguments. */
    constructor (s: Settings)
      ensures Snapshot() == s
    {
      connectionKey := s.connectionKey;
      targetSchema := s.targetSchema;
      targetTable := s.targetTable;
      idColumn := s.idColumn;
      keyColumn := s.keyColumn;
      typeColumn := s.typeColumn;
      payloadColumn := s.payloadColumn;
      metadataColumn := s.metadataColumn;
      timestampColumn := s.timestampColumn;
      versionColumn := s.versionColumn;
      correlationIdColumn := s.correlationIdColumn;
      jsonOptions := s.jsonOptions;
    }

    function TargetTableFqn(): string
      reads this
    {
      TableFqn(Snapshot())
    }

    /** A new, independent configuration with every property equal to this one's. */
    method Clone() returns (c: Configuration)
      ensures fresh(c) && c.Snapshot() == Snapshot()
    {
      c := new Configuration(Snapshot());
    }
  }

  /** The process-wide map from store type to configuration. */
  class ConfigurationRegistry {
    var entries: map<TypeInfo, Configuration>

    constructor ()
      ensures entries == map[]
    {
      entries := map[];
    }

    /** The configuration registered for a type; a type never registered is an error. */
    function GetForType(t: TypeInfo): (r: Result<Configuration>)
      reads this
      ensures r.Success? <==> t in entries
      ensures r.Success? ==> r.value == entries[t]
      ensures r.Failure? ==> r.error == ConfigurationNotFound
    {
      if t !in entries then Failure(ConfigurationNotFound) else Success(entries[t])
    }

    /** Registers (or replaces) the configuration of one type; other types keep theirs. */
    method Register(t: TypeInfo, c: Configuration)
      modifies this
      ensures entries == old(entries)[t := c]
      ensures GetForType(t) == Success(c)
      ensures forall u :: u != t ==> GetForType(u) == old(GetForType(u))
    {
      entries := entries[t := c];
    }
  }
}
