/**
 * The libraries the event store calls but does not define: the JSON
 * serialiser, runtime type resolution, object-to-text conversion, and the
 * values a database row can hold. Each is a parameter of the model.
 */
module Platform {
  import opened Common

  /** What a JSON read yields: a value, the JSON literal null, or malformed input (an exception). */
  datatype Decoded<+T> = Decoded(value: T) | DecodedNull | Malformed

  /** Serializer options, passed through unexamined. */
  datatype JsonOptions = JsonOptions(name: string)

  /** A value read from a result row; DbNull is SQL NULL delivered as a null reference. */
  datatype DbValue =
    | DbNull
    | DbText(text: string)
    | DbInt64(n: int)
    | DbInt32(n: int)
    | DbInt16(n: int)
    | DbDateTime(ticks: int)
    | DbOther(repr: string)

  datatype Runtime = Runtime(
    /** JsonSerializer.Serialize of an event and of metadata */
    writeEvent: (Event, Option<JsonOptions>) -> string,
    writeMetadata: (Metadata, Option<JsonOptions>) -> string,
    /** JsonSerializer.Deserialize into EventMetadata, and into a resolved runtime type */
    readMetadata: (string, Option<JsonOptions>) -> Decoded<Metadata>,
    readPayload: (string, TypeInfo, Option<JsonOptions>) -> Decoded<Event>,
    /** Type.GetType on a fully qualified name */
    resolveType: string -> Option<TypeInfo>,
    /** whether a runtime type can be cast to the store's event type */
    isEvent: TypeInfo -> bool,
    /** object.ToString() of a non-null value that is not text */
    show: DbValue -> string)
}
