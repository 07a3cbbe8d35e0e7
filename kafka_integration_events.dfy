/** KafkaIntegrationEvents.java: the older after-commit listener, which
    handles created events only and passes them to KafkaProducerService. */
module KafkaIntegrationEvents {
  import opened Basics
  import opened JavaLang
  import opened ApplicationEvents
  import opened LinkLifecycleEvents
  import KafkaProducerService

  /** Only created events reach the topic, keyed by their link's id; a failed
      send never throws, only a link without createdAt does. */
  function Handle(topicName: string, event: ApplicationEvent, result: SendResult): (o: SendOutcome)
    ensures event.LinkCreatedApplicationEvent? ==>
      o == KafkaProducerService.SendLinkCreatedEvent(topicName, event.link, result)
    ensures !event.LinkCreatedApplicationEvent? ==> o == SendOutcome(None, None)
    ensures o.sent.Some? ==> o.sent.value.value.LinkCreated? && o.sent.value.key == ValueOf(event.link.id)
    ensures o.thrown.Some? ==> event.LinkCreatedApplicationEvent? && event.link.createdAt.None?
  {
    match event
    case LinkCreatedApplicationEvent(link) => KafkaProducerService.SendLinkCreatedEvent(topicName, link, result)
    case _ => SendOutcome(None, None)
  }
}
