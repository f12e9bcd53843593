/**
 * Version 1.0 of the event record codec: builds metadata from an event's
 * runtime type and decodes a payload through the type its metadata names.
 */
module RecordManagerV1 {
  import opened Common
  import opened Platform

  const Version: string := "1.0"

  /** Metadata for an event: this codec's version and the event's short and full type names. */
  function MetadataOf(event: Event): (m: Metadata)
    ensures m.version == Version
    ensures m.eventType == event.typeInfo.name
    ensures m.fullyQualifiedName == event.typeInfo.fullName
  {
    Metadata(Version, event.typeInfo.name, event.typeInfo.fullName)
  }

  /**
   * Reads metadata from its JSON text: malformed text raises, the JSON
   * literal null yields no metadata.
   */
  function ReadMetadata(rt: Runtime, json: string, options: Option<JsonOptions>): (r: Result<Option<Metadata>>)
    ensures r.Failure? <==> rt.readMetadata(json, options).Malformed?
    ensures r.Failure? ==> r.error == MalformedJson
    ensures r == Success(None) <==> rt.readMetadata(json, options).DecodedNull?
    ensures forall m :: r == Success(Some(m)) <==> rt.readMetadata(json, options) == Decoded(m)
  {
    match rt.readMetadata(json, options)
    case Malformed => Failure(MalformedJson)
    case DecodedNull => Success(None)
    case Decoded(m) => Success(Some(m))
  }

  /**
   * Decodes a payload: resolves the type the metadata names (failing if it
   * does not resolve, before any deserialisation), deserialises into it
   * (failing on malformed text or a null result) and casts to the event type.
   */
  function DecodePayload(rt: Runtime, json: string, metadata: Metadata, options: Option<JsonOptions>): (r: Result<Event>)
    ensures rt.resolveType(metadata.fullyQualifiedName).None? ==> r == Failure(TypeNotFound)
    ensures r.Success? <==>
      && rt.resolveType(metadata.fullyQualifiedName).Some?
      && rt.readPayload(json, rt.resolveType(metadata.fullyQualifiedName).value, options).Decoded?
      && rt.isEvent(rt.readPayload(json, rt.resolveType(metadata.fullyQualifiedName).value, options).value.typeInfo)
    ensures r.Success? ==>
      rt.readPayload(json, rt.resolveType(metadata.fullyQualifiedName).value, options) == Decoded(r.value)
    ensures r.Failure? ==> r.error in {TypeNotFound, MalformedJson, PayloadUnreadable, InvalidCast}
  {
    match rt.resolveType(metadata.fullyQualifiedName)
    case None => Failure(TypeNotFound)
    case Some(t) =>
      match rt.readPayload(json, t, options)
      case Malformed => Failure(MalformedJson)
      case DecodedNull => Failure(PayloadUnreadable)
      case Decoded(obj) => if rt.isEvent(obj.typeInfo) then Success(obj) else Failure(InvalidCast)
  }

  /**
   * The codec round trip: when JSON reading inverts writing and the event's
   * type resolves by its full name, decoding the written payload under the
   * event's own metadata returns the event.
   */
  lemma PayloadRoundTrip(rt: Runtime, event: Event, options: Option<JsonOptions>)
    requires rt.resolveType(event.typeInfo.fullName) == Some(event.typeInfo)
    requires rt.readPayload(rt.writeEvent(event, options), event.typeInfo, options) == Decoded(event)
    requires rt.isEvent(event.typeInfo)
    ensures DecodePayload(rt, rt.writeEvent(event, options), MetadataOf(event), options) == Success(event)
  {
  }
}
