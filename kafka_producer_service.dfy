/** KafkaProducerService.java: the older producer of LinkCreated records. It
    builds the same record as LinkCreatedKafkaProducer but does not wait for
    the broker: the outcome is only logged. */
module KafkaProducerService {
  import opened Basics
  import opened Exceptions
  import opened LinkModel
  import opened LinkLifecycleEvents
  import LinkCreatedKafkaProducer

  /** sendLinkCreatedEvent: fire and forget. A failed send reaches nobody;
      only building the record (a link without createdAt) can throw. */
  function SendLinkCreatedEvent(topicName: string, link: Link, result: SendResult): (o: SendOutcome)
    ensures o.thrown.Some? <==> link.createdAt.None?
    ensures o.thrown.Some? ==> o.thrown.value == NullPointer
    ensures o.sent.Some? <==> link.createdAt.Some? && result == Delivered
    ensures o.sent.Some? ==> LinkCreatedKafkaProducer.LinkCreatedRecord(topicName, link) == Ok(o.sent.value)
  {
    match LinkCreatedKafkaProducer.LinkCreatedRecord(topicName, link)
    case Err(e) => SendOutcome(None, Some(e))
    case Ok(producerRecord) =>
      if result == Delivered then SendOutcome(Some(producerRecord), None) else SendOutcome(None, None)
  }

  /** The two producers of LinkCreated differ only in failure policy: on a
      delivered send they hand the broker the same record, and on a failed
      send only the newer one throws. */
  lemma ProducersDifferOnlyInFailurePolicy(topicName: string, link: Link, result: SendResult)
    ensures SendLinkCreatedEvent(topicName, link, result).sent
            == LinkCreatedKafkaProducer.SendLinkCreatedEvent(topicName, link, result).sent
    ensures link.createdAt.Some? && result != Delivered ==>
            SendLinkCreatedEvent(topicName, link, result).thrown.None?
            && LinkCreatedKafkaProducer.SendLinkCreatedEvent(topicName, link, result).thrown.Some?
  {
  }
}
