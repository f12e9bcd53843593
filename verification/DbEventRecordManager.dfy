/**
 * Codec dispatch: the record manager for a version string, with the single
 * version-1.0 instance created on first request and cached afterwards.
 */
module RecordManager {
  import opened Common
  import opened Platform
  import V1 = RecordManagerV1

  /** The version selected when none is given. */
  const DefaultVersion: string := "1.0"

  /** The codec implementations; 1.0 is the only one. */
  datatype Codec = CodecV1 {
    function Version(): string { V1.Version }

    function MetadataOf(event: Event): Metadata { V1.MetadataOf(event) }

    function ReadMetadata(rt: Runtime, json: string, options: Option<JsonOptions>): Result<Option<Metadata>>
    {
      V1.ReadMetadata(rt, json, options)
    }

    function DecodePayload(rt: Runtime, json: string, metadata: Metadata, options: Option<JsonOptions>): Result<Event>
    {
      V1.DecodePayload(rt, json, metadata, options)
    }
  }

  /** The codec for a version string; any version but 1.0 is not supported. */
  function Dispatch(version: string): (r: Result<Codec>)
    ensures r.Success? <==> version == V1.Version
    ensures r.Success? ==> r.value.Version() == version
    ensures r.Failure? ==> r.error == VersionNotSupported
  {
    if version == "1.0" then Success(CodecV1) else Failure(VersionNotSupported)
  }

  /** The default version is a supported one. */
  lemma DefaultVersionSupported()
    ensures Dispatch(DefaultVersion) == Success(CodecV1)
    ensures Dispatch(DefaultVersion).value.Version() == DefaultVersion
  {
  }

  /** A record manager instance. */
  class Manager {
    const codec: Codec

    constructor (codec: Codec)
      ensures this.codec == codec
    {
      this.codec := codec;
    }
  }

  /** The process-wide slot holding the lazily created version-1.0 manager. */
  class ManagerCache {
    var v1: Manager?

    ghost predicate Valid()
      reads this
    {
      v1 != null ==> v1.codec == CodecV1
    }

    constructor ()
      ensures Valid() && v1 == null
    {
      v1 := null;
    }

    /**
     * The manager for a version: for 1.0 the cached instance, created on the
     * first request; any other version fails and leaves the cache alone.
     */
    method GetInstance(version: string) returns (r: Result<Manager>)
      requires Valid()
      modifies this
      ensures Valid()
      ensures r.Success? <==> Dispatch(version).Success?
      ensures r.Success? ==> r.value.codec == Dispatch(version).value && v1 == r.value
      ensures r.Success? && old(v1) != null ==> r.value == old(v1)
      ensures r.Success? && old(v1) == null ==> fresh(r.value)
      ensures r.Failure? ==> r.error == VersionNotSupported && v1 == old(v1)
    {
      if version == "1.0" {
        if v1 == null {
          v1 := new Manager(CodecV1);
        }
        return Success(v1);
      }
      return Failure(VersionNotSupported);
    }
  }
}
