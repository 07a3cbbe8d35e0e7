/** LinkUpdatedKafkaProducer.java: turns an updated link into a LinkUpdated
    record and sends it; a failed send is logged and swallowed. */
module LinkUpdatedKafkaProducer {
  import opened Basics
  import opened JavaLang
  import opened Exceptions
  import opened LinkModel
  import opened LinkLifecycleEvents

  /** The record built before the send; updatedAt is read from the link. */
  function LinkUpdatedRecord(topicName: string, link: Link): (r: Result<ProducerRecord, LinkError>)
    ensures r.Err? <==> link.updatedAt.None?
    ensures r.Err? ==> r.error == NullPointer
    ensures r.Ok? ==> r.value.topic == topicName && r.value.key == ValueOf(link.id)
    ensures r.Ok? ==> r.value.headers == [SOURCE_HEADER]
    ensures r.Ok? ==>
      var e := r.value.value;
      && e.LinkUpdated?
      && e.linkId == r.value.key
      && e.userId == link.userId && e.shortUrl == link.shortUrl && e.longUrl == link.longUrl
      && e.isActive == link.isActive
      && ToInstant(e.updatedAt) == link.updatedAt.value && 0 <= e.updatedAt.nanos < NanosPerSecond
      && e.title == TitleOrEmpty(link.title)
  {
    match link.updatedAt
    case None => Err(NullPointer)
    case Some(updatedAt) =>
      var updatedPayload := LinkUpdated(ValueOf(link.id), link.userId, link.shortUrl, link.longUrl,
                                        link.isActive, ToTimestamp(updatedAt), TitleOrEmpty(link.title));
      Ok(ProducerRecord(topicName, ValueOf(link.id), updatedPayload, [SOURCE_HEADER]))
  }

  /** sendLinkUpdatedEvent: the send sits in a catch-all, so only a failure
      while building the record (a link without updatedAt) escapes. */
  function SendLinkUpdatedEvent(topicName: string, link: Link, result: SendResult): (o: SendOutcome)
    ensures o.sent.Some? <==> link.updatedAt.Some? && result == Delivered
    ensures o.sent.Some? ==> LinkUpdatedRecord(topicName, link) == Ok(o.sent.value)
    ensures o.thrown.Some? <==> link.updatedAt.None?
    ensures o.thrown.Some? ==> o.thrown.value == NullPointer
  {
    match LinkUpdatedRecord(topicName, link)
    case Err(e) => SendOutcome(None, Some(e))
    case Ok(producerRecord) =>
      if result == Delivered then SendOutcome(Some(producerRecord), None) else SendOutcome(None, None)
  }
}
