/** The fixed-size record that flows through the pipeline. */
module Events {
  import opened Bits

  const STREAM_ID_MAX: nat := 32
  const SCHEMA_ID_MAX: nat := 16

  /** `payload` is the whole inline array; `payloadSize` of its bytes are in use. */
  datatype Event = Event(
    timestampNs: u64,
    sequence: u64,
    lineageDepth: u32,
    payloadSize: u16,
    streamId: seq<byte>,
    schemaId: seq<byte>,
    payload: seq<byte>)
  {
    function Stream(): Name { CStr(streamId) }
  }

  /** An event whose stream field holds a name, as ingestors and scripts write it, belongs
      to the stream of that name. */
  lemma StreamIs(ev: Event, k: Name)
    requires 0 !in k && |k| < STREAM_ID_MAX && ev.streamId == Field(STREAM_ID_MAX, k)
    ensures ev.Stream() == k
  {
    FieldRoundTrip(STREAM_ID_MAX, k);
  }
}
