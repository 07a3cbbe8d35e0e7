/** LinkEventsPublisher.java: the after-commit listener of the current wiring.
    Created events go to LinkCreatedKafkaProducer, updated events to
    LinkUpdatedKafkaProducer; there is no handler for deleted events. */
module LinkEventsPublisher {
  import opened Basics
  import opened JavaLang
  import opened ApplicationEvents
  import opened LinkLifecycleEvents
  import LinkCreatedKafkaProducer
  import LinkUpdatedKafkaProducer

  /** The handler a committed event reaches, with the event's link unchanged.
      A record that reaches the topic is keyed by the event's link id and has
      the payload case of the event, so a deleted event never produces one. */
  function Handle(topicName: string, event: ApplicationEvent, result: SendResult): (o: SendOutcome)
    ensures event.LinkCreatedApplicationEvent? ==>
      o == LinkCreatedKafkaProducer.SendLinkCreatedEvent(topicName, event.link, result)
    ensures event.LinkUpdatedApplicationEvent? ==>
      o == LinkUpdatedKafkaProducer.SendLinkUpdatedEvent(topicName, event.link, result)
    ensures event.LinkDeletedApplicationEvent? ==> o == SendOutcome(None, None)
    ensures o.sent.Some? ==>
      && o.sent.value.key == ValueOf(event.link.id)
      && o.sent.value.headers == [SOURCE_HEADER]
      && (o.sent.value.value.LinkCreated? <==> event.LinkCreatedApplicationEvent?)
      && (o.sent.value.value.LinkUpdated? <==> event.LinkUpdatedApplicationEvent?)
  {
    match event
    case LinkCreatedApplicationEvent(link) => LinkCreatedKafkaProducer.SendLinkCreatedEvent(topicName, link, result)
    case LinkUpdatedApplicationEvent(link) => LinkUpdatedKafkaProducer.SendLinkUpdatedEvent(topicName, link, result)
    case LinkDeletedApplicationEvent(_) => SendOutcome(None, None)
  }
}
