/** The records the link service writes to Kafka: the LinkLifecycleEvent
    protobuf message with its three cases, the protobuf Timestamp, and the
    ProducerRecord with its headers. */
module LinkLifecycleEvents {
  import opened Basics
  import opened Exceptions

  /** google.protobuf.Timestamp: whole seconds and the nanoseconds within the second. */
  datatype Timestamp = Timestamp(seconds: int, nanos: int)

  /** Timestamp.newBuilder().setSeconds(t.getEpochSecond()).setNanos(t.getNano()):
      the pair denotes the same instant, with nanos inside one second. */
  function ToTimestamp(t: Instant): (ts: Timestamp)
    ensures ts.seconds * NanosPerSecond + ts.nanos == t
    ensures 0 <= ts.nanos < NanosPerSecond
  {
    Timestamp(EpochSecond(t), Nano(t))
  }

  /** The instant a Timestamp denotes. */
  function ToInstant(ts: Timestamp): Instant
  {
    ts.seconds * NanosPerSecond + ts.nanos
  }

  /** Converting to a Timestamp and back is the identity on instants, and on
      normalised Timestamps the other way round. */
  lemma TimestampRoundTrip(t: Instant, ts: Timestamp)
    ensures ToInstant(ToTimestamp(t)) == t
    ensures 0 <= ts.nanos < NanosPerSecond ==> ToTimestamp(ToInstant(ts)) == ts
  {
    if 0 <= ts.nanos < NanosPerSecond {
      var back := ToTimestamp(ToInstant(ts));
      SecondsNanosUnique(back.seconds, back.nanos, ts.seconds, ts.nanos);
    }
  }

  /** A count of nanoseconds splits into seconds and a nanosecond remainder in only one way. */
  lemma SecondsNanosUnique(s1: int, n1: int, s2: int, n2: int)
    requires 0 <= n1 < NanosPerSecond && 0 <= n2 < NanosPerSecond
    requires s1 * NanosPerSecond + n1 == s2 * NanosPerSecond + n2
    ensures s1 == s2 && n1 == n2
  {
    var d := s1 - s2;
    assert d * NanosPerSecond == n2 - n1;
  }

  /** LinkLifecycleEvent: exactly one of its three payloads is set. */
  datatype LinkLifecycleEvent =
    | LinkCreated(linkId: string, userId: string, shortUrl: string, longUrl: string,
                  isActive: bool, createdAt: Timestamp, title: string)
    | LinkUpdated(linkId: string, userId: string, shortUrl: string, longUrl: string,
                  isActive: bool, updatedAt: Timestamp, title: string)
    | LinkDeleted(linkId: string, userId: string, shortUrl: string, deletedAt: Timestamp)

  /** A record header; the value is the UTF-8 encoding of an ASCII string, kept as the string. */
  datatype Header = Header(key: string, value: string)

  datatype ProducerRecord = ProducerRecord(topic: string, key: string, value: LinkLifecycleEvent, headers: seq<Header>)

  const SOURCE_HEADER_VALUE: string := "link-service"

  /** The header every producer adds: source = "link-service". */
  const SOURCE_HEADER: Header := Header("source", SOURCE_HEADER_VALUE)

  /** What the broker did with one send, as the producer observes it. */
  datatype SendResult = Delivered | Failed | WaitInterrupted

  /** What one call of a producer leaves behind: the record the broker took,
      if any, and the exception the call throws, if any. */
  datatype SendOutcome = SendOutcome(sent: Option<ProducerRecord>, thrown: Option<LinkError>)

  /** A proto3 string field cannot hold null: an absent title is sent as "". */
  function TitleOrEmpty(title: Option<string>): (r: string)
    ensures title.Some? ==> r == title.value
    ensures title.None? ==> r == ""
  {
    if title.Some? then title.value else ""
  }
}
