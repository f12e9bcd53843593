/**
 * Values shared by every part of the event-sourcing core: results and error
 * tags, events and the entities that own them, and the log of calls the two
 * repositories make to their document session and event publisher.
 */
module Common {

  datatype Option<+T> = None | Some(value: T)

  /** The outcome of an operation that yields a value or fails with a tag. */
  datatype Result<+T> = Success(value: T) | Failure(error: Error) {
    predicate IsFailure() { Failure? }
    function PropagateFailure<U>(): Result<U> requires Failure? { Failure(error) }
    function Extract(): T requires Success? { value }
  }

  /** The outcome of an operation that yields nothing or fails with a tag. */
  datatype Outcome = Pass | Fail(error: Error)

  /**
   * Failure tags. The source raises exceptions with localised messages; the
   * model keeps one distinct tag per raise site.
   */
  datatype Error =
    // unit-of-work misuse (EventRepository)
    | PersistenceAlreadyActive
    | PersistenceNotActive
    // configuration and codec lookup
    | ConfigurationNotFound
    | VersionNotSupported
    // payload decoding (DbEventRecordManagerV1)
    | TypeNotFound
    | PayloadUnreadable
    | InvalidCast
    | MalformedJson
    // row validation (DbEventStore.LoadRecordsAsync)
    | VersionNotSpecified
    | MetadataNotFound
    | InvalidTimestamp
    | MetadataUnreadable
    | PayloadNotFound
    | ColumnNotFound
    | NullReference
    // raised by collaborators and passed through unchanged
    | ConcurrencyConflict
    | DatabaseError

  /** A runtime type: its short name and its full name. */
  datatype TypeInfo = TypeInfo(name: string, fullName: string)

  /**
   * A domain event: its runtime type, the instant it was initiated (used to
   * order events across entities) and its own serialisable content.
   */
  datatype Event = Event(typeInfo: TypeInfo, instant: int, data: string)

  function EventInstant(e: Event): int { e.instant }

  /** The codec metadata stored beside a payload. */
  datatype Metadata = Metadata(version: string, eventType: string, fullyQualifiedName: string)

  /**
   * An event-sourced entity (aggregate root or event source) as the
   * repositories see it: identity, expected version, whether it has never
   * been persisted, and its pending events.
   */
  datatype EventSource = EventSource(id: string, version: int, isNew: bool, events: seq<Event>)

  /** One call made by a repository to its document session or publisher. */
  datatype Op =
    | StartStream(id: string, events: seq<Event>)
    | Append(id: string, expectedVersion: int, events: seq<Event>)
    | SaveChanges
    | Publish(published: seq<Event>)
    | PublishSource(source: EventSource)
    | Flush(source: EventSource)
    | DisposeSession
    | DisposeSessionAsync

  /**
   * The document session's answer to SaveChanges, given every call the
   * repository made before it (a concurrency conflict, a database error, or
   * success).
   */
  datatype Session = Session(commit: seq<Op> -> Outcome)

  /**
   * The stream operation a repository stages for one whole entity: a new
   * entity starts its stream with all its pending events, any other entity
   * appends them at its current version.
   */
  function StreamOp(s: EventSource): (op: Op)
    ensures op.StartStream? || op.Append?
    ensures op.StartStream? <==> s.isNew
    ensures op.id == s.id && op.events == s.events
    ensures op.Append? ==> op.expectedVersion == s.version
  {
    if s.isNew then StartStream(s.id, s.events) else Append(s.id, s.version, s.events)
  }

  /** The Flush calls for the given entities, in order. */
  function Flushes(sources: seq<EventSource>): seq<Op>
  {
    seq(|sources|, i requires 0 <= i < |sources| => Flush(sources[i]))
  }

  /** All pending events of the given entities, entity by entity (SelectMany). */
  function AllEvents(sources: seq<EventSource>): seq<Event>
  {
    if sources == [] then []
    else AllEvents(sources[..|sources| - 1]) + sources[|sources| - 1].events
  }
}
