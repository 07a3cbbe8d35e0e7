/** Spring's @Transactional together with @TransactionalEventListener(phase =
    AFTER_COMMIT): events published inside a transaction are held back and
    handed to the listener only once the transaction commits; a rollback
    restores the table and drops them. The listener's @Async hand-off is
    modelled as an in-order dispatch at commit; what a handler throws there
    never reaches the caller and is collected in `uncaught`. */
module Transactions {
  import opened Basics
  import opened JavaLang
  import opened Exceptions
  import opened LinkModel
  import opened ApplicationEvents
  import opened LinkLifecycleEvents
  import opened JdbcLinkRepository
  import LinkEventsPublisher
  import KafkaIntegrationEvents

  /** Which after-commit listener is registered. */
  datatype Wiring = EventsPublisherWiring | IntegrationEventsWiring

  function Dispatch(wiring: Wiring, topicName: string, event: ApplicationEvent, result: SendResult): SendOutcome
  {
    match wiring
    case EventsPublisherWiring => LinkEventsPublisher.Handle(topicName, event, result)
    case IntegrationEventsWiring => KafkaIntegrationEvents.Handle(topicName, event, result)
  }

  function OptionToSeq<T>(o: Option<T>): (s: seq<T>)
    ensures |s| <= 1
  {
    if o.Some? then [o.value] else []
  }

  /** What committing a sequence of events leaves: the records the broker
      took, in order, and the exceptions the handlers threw. */
  datatype Delivery = Delivery(records: seq<ProducerRecord>, uncaught: seq<LinkError>)

  /** The listener run on each event in publication order, with one send
      result per event. */
  function Flush(wiring: Wiring, topicName: string, events: seq<ApplicationEvent>, results: seq<SendResult>): (d: Delivery)
    requires |results| == |events|
    ensures |d.records| <= |events| && |d.uncaught| <= |events|
    ensures forall i :: 0 <= i < |d.records| ==> !d.records[i].value.LinkDeleted?
    decreases |events|
  {
    if events == [] then Delivery([], [])
    else
      var n := |events| - 1;
      var before := Flush(wiring, topicName, events[..n], results[..n]);
      var o := Dispatch(wiring, topicName, events[n], results[n]);
      Delivery(before.records + OptionToSeq(o.sent), before.uncaught + OptionToSeq(o.thrown))
  }

  /** An event the current wiring turns into a record: a created event with
      its creation time, or an updated event with its update time. */
  predicate Publishable(event: ApplicationEvent)
  {
    || (event.LinkCreatedApplicationEvent? && event.link.createdAt.Some?)
    || (event.LinkUpdatedApplicationEvent? && event.link.updatedAt.Some?)
  }

  lemma PublishableIsSent(topicName: string, event: ApplicationEvent)
    requires Publishable(event)
    ensures Dispatch(EventsPublisherWiring, topicName, event, Delivered).sent.Some?
    ensures Dispatch(EventsPublisherWiring, topicName, event, Delivered).thrown.None?
    ensures Dispatch(EventsPublisherWiring, topicName, event, Delivered).sent.value.key == ValueOf(event.link.id)
  {
  }

  /** Flush unfolded once: the last event's outcome is appended to the
      outcome of the ones before it. */
  lemma FlushLast(wiring: Wiring, topicName: string, events: seq<ApplicationEvent>, results: seq<SendResult>)
    requires |results| == |events| && events != []
    ensures var n := |events| - 1;
            var before := Flush(wiring, topicName, events[..n], results[..n]);
            var o := Dispatch(wiring, topicName, events[n], results[n]);
            Flush(wiring, topicName, events, results)
              == Delivery(before.records + OptionToSeq(o.sent), before.uncaught + OptionToSeq(o.thrown))
  {
  }

  /** Under the current wiring, when every event is publishable and every
      send is delivered, the topic receives one record per event, in
      publication order, keyed by the event's link id, and nothing is thrown. */
  lemma {:induction false} FlushDeliversInOrder(topicName: string, events: seq<ApplicationEvent>, results: seq<SendResult>)
    requires |results| == |events|
    requires forall i :: 0 <= i < |events| ==> results[i] == Delivered && Publishable(events[i])
    ensures |Flush(EventsPublisherWiring, topicName, events, results).records| == |events|
    ensures Flush(EventsPublisherWiring, topicName, events, results).uncaught == []
    ensures forall i :: 0 <= i < |events| ==>
      Flush(EventsPublisherWiring, topicName, events, results).records[i].key == ValueOf(events[i].link.id)
    decreases |events|
  {
    if events != [] {
      var n := |events| - 1;
      var prefix, prefixResults := events[..n], results[..n];
      assert forall i :: 0 <= i < n ==> prefix[i] == events[i] && prefixResults[i] == results[i];
      FlushDeliversInOrder(topicName, prefix, prefixResults);
      var before := Flush(EventsPublisherWiring, topicName, prefix, prefixResults);
      PublishableIsSent(topicName, events[n]);
      var record := Dispatch(EventsPublisherWiring, topicName, events[n], results[n]).sent.value;
      FlushLast(EventsPublisherWiring, topicName, events, results);
      KeysAppend(before.records, prefix, record, events);
    }
  }

  /** Appending the last event's record to records keyed by the earlier
      events keeps every record keyed by its own event. */
  lemma KeysAppend(before: seq<ProducerRecord>, prefix: seq<ApplicationEvent>, record: ProducerRecord, events: seq<ApplicationEvent>)
    requires |before| == |prefix| && |events| == |prefix| + 1
    requires forall i :: 0 <= i < |prefix| ==> prefix[i] == events[i] && before[i].key == ValueOf(prefix[i].link.id)
    requires record.key == ValueOf(events[|prefix|].link.id)
    ensures forall i :: 0 <= i < |events| ==> (before + [record])[i].key == ValueOf(events[i].link.id)
  {
    forall i | 0 <= i < |events|
      ensures (before + [record])[i].key == ValueOf(events[i].link.id)
    {
      if i < |prefix| {
        assert (before + [record])[i] == before[i];
      }
    }
  }

  /** Under the current wiring a deleted event reaches no producer: adding
      deleted events anywhere changes nothing that is sent or thrown. */
  lemma {:induction false} DeletedEventsAreNotPublished(topicName: string, events: seq<ApplicationEvent>, results: seq<SendResult>)
    requires |results| == |events|
    requires forall i :: 0 <= i < |events| ==> events[i].LinkDeletedApplicationEvent?
    ensures Flush(EventsPublisherWiring, topicName, events, results) == Delivery([], [])
    decreases |events|
  {
    if events != [] {
      var n := |events| - 1;
      DeletedEventsAreNotPublished(topicName, events[..n], results[..n]);
    }
  }

  /** Under the older wiring only created events reach the topic, whatever
      the send results: every record is a LinkCreated one, there are no more
      records than created events, and a handler throws only for a created
      event whose link has no creation time. */
  lemma {:induction false} IntegrationWiringSendsOnlyCreated(topicName: string, events: seq<ApplicationEvent>, results: seq<SendResult>)
    requires |results| == |events|
    ensures var d := Flush(IntegrationEventsWiring, topicName, events, results);
      && (forall i :: 0 <= i < |d.records| ==> d.records[i].value.LinkCreated?)
      && |d.records| <= CreatedCount(events)
      && ((forall i :: 0 <= i < |events| ==> events[i].LinkCreatedApplicationEvent? ==> events[i].link.createdAt.Some?)
          ==> d.uncaught == [])
    decreases |events|
  {
    if events != [] {
      var n := |events| - 1;
      var prefix, prefixResults := events[..n], results[..n];
      assert forall i :: 0 <= i < n ==> prefix[i] == events[i];
      IntegrationWiringSendsOnlyCreated(topicName, prefix, prefixResults);
      var before := Flush(IntegrationEventsWiring, topicName, prefix, prefixResults);
      var o := Dispatch(IntegrationEventsWiring, topicName, events[n], results[n]);
      FlushLast(IntegrationEventsWiring, topicName, events, results);
      assert CreatedCount(events) == CreatedCount(prefix) + (if events[n].LinkCreatedApplicationEvent? then 1 else 0);
      OnlyCreatedAppend(before.records, OptionToSeq(o.sent));
    }
  }

  /** Records that are all LinkCreated stay so when more such records are appended. */
  lemma OnlyCreatedAppend(before: seq<ProducerRecord>, more: seq<ProducerRecord>)
    requires forall i :: 0 <= i < |before| ==> before[i].value.LinkCreated?
    requires forall i :: 0 <= i < |more| ==> more[i].value.LinkCreated?
    ensures forall i :: 0 <= i < |before + more| ==> (before + more)[i].value.LinkCreated?
  {
    forall i | 0 <= i < |before + more|
      ensures (before + more)[i].value.LinkCreated?
    {
      if i < |before| {
        assert (before + more)[i] == before[i];
      } else {
        assert (before + more)[i] == more[i - |before|];
      }
    }
  }

  function CreatedCount(events: seq<ApplicationEvent>): nat
  {
    if events == [] then 0
    else CreatedCount(events[..|events| - 1]) + (if events[|events| - 1].LinkCreatedApplicationEvent? then 1 else 0)
  }

  class Transaction {
    const table: LinkTable
    const wiring: Wiring
    const topicName: string
    var active: bool
    /** The table as it was when the transaction began. */
    var snapshot: map<int, Link>
    /** Events published in the transaction, waiting for the commit. */
    var pending: seq<ApplicationEvent>
    /** Every event handed to the listener, over all committed transactions. */
    var dispatched: seq<ApplicationEvent>
    /** Every record the broker has taken, over all transactions. */
    var outbox: seq<ProducerRecord>
    /** Exceptions thrown by after-commit handlers, seen only by the async executor. */
    var uncaught: seq<LinkError>

    ghost predicate Valid()
      reads this, table
    {
      && table.Valid()
      && (active ==> ValidRows(snapshot, table.nextId))
      && (!active ==> pending == [])
    }

    constructor (table: LinkTable, wiring: Wiring, topicName: string)
      requires table.Valid()
      ensures this.table == table && this.wiring == wiring && this.topicName == topicName
      ensures Valid() && !active && pending == [] && dispatched == [] && outbox == [] && uncaught == []
    {
      this.table := table;
      this.wiring := wiring;
      this.topicName := topicName;
      active := false;
      snapshot := map[];
      pending := [];
      dispatched := [];
      outbox := [];
      uncaught := [];
    }

    method Begin()
      requires Valid() && !active
      modifies this
      ensures Valid() && active && snapshot == table.rows && pending == []
      ensures dispatched == old(dispatched) && outbox == old(outbox) && uncaught == old(uncaught)
    {
      active := true;
      snapshot := table.rows;
      pending := [];
    }

    /** ApplicationEventPublisher.publishEvent inside the transaction: the
        event is only registered, nothing is sent yet. */
    method PublishEvent(event: ApplicationEvent)
      requires Valid() && active
      modifies this
      ensures Valid() && active && snapshot == old(snapshot)
      ensures pending == old(pending) + [event]
      ensures dispatched == old(dispatched) && outbox == old(outbox) && uncaught == old(uncaught)
    {
      pending := pending + [event];
    }

    /** Commit: the table keeps its changes and the listener runs on each
        pending event in publication order, one send result per event. */
    method Commit(results: seq<SendResult>)
      requires Valid() && active && |results| == |pending|
      modifies this
      ensures Valid() && !active && pending == []
      ensures dispatched == old(dispatched) + old(pending)
      ensures outbox == old(outbox) + Flush(wiring, topicName, old(pending), results).records
      ensures uncaught == old(uncaught) + Flush(wiring, topicName, old(pending), results).uncaught
    {
      var delivery := Flush(wiring, topicName, pending, results);
      dispatched := dispatched + pending;
      outbox := outbox + delivery.records;
      uncaught := uncaught + delivery.uncaught;
      pending := [];
      active := false;
    }

    /** Rollback: the table returns to its state at Begin (the id sequence is
        not transactional and keeps its value) and the pending events are dropped. */
    method Rollback()
      requires Valid() && active
      modifies this, table
      ensures Valid() && !active && pending == []
      ensures table.rows == old(snapshot) && table.nextId == old(table.nextId)
      ensures dispatched == old(dispatched) && outbox == old(outbox) && uncaught == old(uncaught)
    {
      table.rows := snapshot;
      pending := [];
      active := false;
    }
  }
}
