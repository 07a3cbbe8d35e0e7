/** LinkDeletedKafkaProducer.java: a LinkDeleted record stamped with the
    clock, not with any time stored in the link; a failed send is swallowed. */
module LinkDeletedKafkaProducer {
  import opened Basics
  import opened JavaLang
  import opened Exceptions
  import opened LinkModel
  import opened LinkLifecycleEvents

  /** The record built before the send, stamped with a single clock reading
      now: the deletion time the record carries is exactly that instant. */
  function LinkDeletedRecord(topicName: string, link: Link, now: Instant): (r: ProducerRecord)
    ensures r.topic == topicName && r.key == ValueOf(link.id) && r.headers == [SOURCE_HEADER]
    ensures r.value.LinkDeleted? && r.value.linkId == r.key
    ensures r.value.userId == link.userId && r.value.shortUrl == link.shortUrl
    ensures ToInstant(r.value.deletedAt) == now
  {
    var deletedPayload := LinkDeleted(ValueOf(link.id), link.userId, link.shortUrl, ToTimestamp(now));
    ProducerRecord(topicName, ValueOf(link.id), deletedPayload, [SOURCE_HEADER])
  }

  /** The record as the producer builds it: the clock is read once for the
      seconds and again for the nanos. With one reading this is the record
      above; otherwise the second of the first reading is combined with the
      nanosecond of the second reading. */
  function LinkDeletedRecordAsWritten(topicName: string, link: Link, first: Instant, second: Instant): (r: ProducerRecord)
    ensures r.value.LinkDeleted?
    ensures ToInstant(r.value.deletedAt) == first - Nano(first) + Nano(second)
    ensures first == second ==> r == LinkDeletedRecord(topicName, link, first)
  {
    var deletedAt := Timestamp(ToTimestamp(first).seconds, ToTimestamp(second).nanos);
    var deletedPayload := LinkDeleted(ValueOf(link.id), link.userId, link.shortUrl, deletedAt);
    ProducerRecord(topicName, ValueOf(link.id), deletedPayload, [SOURCE_HEADER])
  }

  /** When the second reading's nanosecond-of-second is smaller than the
      first's, the stamped deletion time lies before the first reading,
      although the clock only moved forward. */
  lemma TornDeletedAtPrecedesClock(topicName: string, link: Link, first: Instant, second: Instant)
    requires first <= second && Nano(second) < Nano(first)
    ensures ToInstant(LinkDeletedRecordAsWritten(topicName, link, first, second).value.deletedAt) < first
  {
  }

  /** A concrete pair of readings, 0.999999999 s and 1.000000001 s after the
      epoch, that the record stamps as 0.000000001 s. */
  lemma TornDeletedAtExample(topicName: string, link: Link)
    ensures ToInstant(LinkDeletedRecordAsWritten(topicName, link, NanosPerSecond - 1, NanosPerSecond + 1).value.deletedAt) == 1
  {
    assert Nano(NanosPerSecond - 1) == NanosPerSecond - 1;
    assert Nano(NanosPerSecond + 1) == 1;
  }

  /** The payload has no long URL, title, flag or stored timestamp: links that
      differ only in those give the same record. */
  lemma DeletedRecordIgnoresContent(topicName: string, link: Link, other: Link, now: Instant)
    requires other.id == link.id && other.userId == link.userId && other.shortUrl == link.shortUrl
    ensures LinkDeletedRecord(topicName, other, now) == LinkDeletedRecord(topicName, link, now)
  {
  }

  /** sendLinkDeletedEvent: never throws; the record reaches the topic only when delivered. */
  function SendLinkDeletedEvent(topicName: string, link: Link, now: Instant, result: SendResult): (o: SendOutcome)
    ensures o.thrown.None?
    ensures o.sent.Some? <==> result == Delivered
    ensures o.sent.Some? ==> o.sent.value == LinkDeletedRecord(topicName, link, now)
  {
    if result == Delivered then SendOutcome(Some(LinkDeletedRecord(topicName, link, now)), None)
    else SendOutcome(None, None)
  }
}
