/** LinkCreatedKafkaProducer.java: turns a saved link into a LinkCreated
    record, sends it and waits; every failure is thrown to the caller. */
module LinkCreatedKafkaProducer {
  import opened Basics
  import opened JavaLang
  import opened Exceptions
  import opened LinkModel
  import opened LinkLifecycleEvents

  /** The record built before the send. Reading createdAt's seconds
      dereferences it, so a link without createdAt fails with a null pointer. */
  function LinkCreatedRecord(topicName: string, link: Link): (r: Result<ProducerRecord, LinkError>)
    ensures r.Err? <==> link.createdAt.None?
    ensures r.Err? ==> r.error == NullPointer
    ensures r.Ok? ==> r.value.topic == topicName && r.value.key == ValueOf(link.id)
    ensures r.Ok? ==> r.value.headers == [SOURCE_HEADER]
    ensures r.Ok? ==>
      var e := r.value.value;
      && e.LinkCreated?
      && e.linkId == r.value.key
      && e.userId == link.userId && e.shortUrl == link.shortUrl && e.longUrl == link.longUrl
      && e.isActive == link.isActive
      && ToInstant(e.createdAt) == link.createdAt.value && 0 <= e.createdAt.nanos < NanosPerSecond
      && e.title == TitleOrEmpty(link.title)
  {
    match link.createdAt
    case None => Err(NullPointer)
    case Some(createdAt) =>
      var createdPayload := LinkCreated(ValueOf(link.id), link.userId, link.shortUrl, link.longUrl,
                                        link.isActive, ToTimestamp(createdAt), TitleOrEmpty(link.title));
      Ok(ProducerRecord(topicName, ValueOf(link.id), createdPayload, [SOURCE_HEADER]))
  }

  /** sendLinkCreatedEvent: a delivered record is the only outcome without an
      exception; a failed send becomes KafkaEventSendingException and an
      interrupted wait a RuntimeException. */
  function SendLinkCreatedEvent(topicName: string, link: Link, result: SendResult): (o: SendOutcome)
    ensures o.sent.Some? <==> link.createdAt.Some? && result == Delivered
    ensures o.sent.Some? ==> LinkCreatedRecord(topicName, link) == Ok(o.sent.value)
    ensures o.thrown.None? <==> o.sent.Some?
    ensures link.createdAt.None? ==> o.thrown == Some(NullPointer)
    ensures link.createdAt.Some? && result == Failed ==> o.thrown == Some(KafkaEventSending(KAFKA_SEND_FAILED_MESSAGE))
    ensures link.createdAt.Some? && result == WaitInterrupted ==> o.thrown == Some(Interrupted(KAFKA_SEND_INTERRUPTED_MESSAGE))
  {
    match LinkCreatedRecord(topicName, link)
    case Err(e) => SendOutcome(None, Some(e))
    case Ok(producerRecord) =>
      match result
      case Delivered => SendOutcome(Some(producerRecord), None)
      case Failed => SendOutcome(None, Some(KafkaEventSending(KAFKA_SEND_FAILED_MESSAGE)))
      case WaitInterrupted => SendOutcome(None, Some(Interrupted(KAFKA_SEND_INTERRUPTED_MESSAGE)))
  }

  /** The record keeps everything the payload is built from, except that an
      absent title and an empty title look the same. */
  lemma CreatedRecordDeterminesLink(topicName: string, a: Link, b: Link)
    requires a.createdAt.Some? && b.createdAt.Some?
    requires LinkCreatedRecord(topicName, a) == LinkCreatedRecord(topicName, b)
    ensures a.id == b.id && a.createdAt == b.createdAt
    ensures a.userId == b.userId && a.shortUrl == b.shortUrl && a.longUrl == b.longUrl && a.isActive == b.isActive
    ensures a.title == b.title || {a.title, b.title} == {None, Some("")}
  {
    ValueOfInjective(a.id, b.id);
  }
}
