/**
  The transactional outbox (src/event/outbox.service.ts): what a stored event publishes, and how
  `flush` drains the pending rows in batches of twenty.
 */
module Outbox {
  import opened Wrappers
  import opened Collections

  type EventId = nat

  /** JSON values as far as the outbox looks at them: it only tests whether `topic` is truthy. */
  datatype Value = Text(text: string) | Number(number: int) | Reference(id: EventId) | Null

  type Body = map<string, Value>

  datatype EventRow = EventRow(id: EventId, metadata: Option<Body>, from: Option<string>, version: int,
                               createdAt: int, publishedAt: Option<int>)

  datatype Emission = Emission(id: EventId, topic: Value, payload: Body)

  const EVENT_CONTRACT_VERSION := 1
  const PENDING_PUBLICATION_BATCH := 20

  const ENVELOPE_KEYS: set<string> := {"eventId", "occurredAt", "version", "actorUserId"}

  /** `enqueue`: the row written with the caller's transaction. */
  function Enqueued(id: EventId, topic: string, body: Body, from: Option<string>, now: int): EventRow {
    EventRow(id, Some(body["topic" := Text(topic)]), from, EVENT_CONTRACT_VERSION, now, None)
  }

  function Metadata(row: EventRow): Body {
    if row.metadata.Some? then row.metadata.value else map[]
  }

  predicate HasTopic(row: EventRow) {
    "topic" in Metadata(row) && IsTruthy(Metadata(row)["topic"])
  }

  predicate IsTruthy(v: Value) {
    v != Text("") && v != Number(0) && v != Null
  }

  function Envelope(row: EventRow): Body {
    map["eventId" := Reference(row.id),
        "occurredAt" := Number(row.createdAt),
        "version" := Number(row.version),
        "actorUserId" := if row.from.Some? then Text(row.from.value) else Null]
  }

  /** The message: the envelope, overlaid with the body. */
  function EmissionOf(row: EventRow): Emission
    requires HasTopic(row)
  {
    var body := Metadata(row);
    Emission(row.id, body["topic"], Envelope(row) + (body - {"topic"}))
  }

  // ------------------------------------------------------------------------------------------
  // Exactly when a message carries its body and its envelope.
  // ------------------------------------------------------------------------------------------

  predicate Carries(payload: Body, part: Body) {
    forall k :: k in part ==> k in payload && payload[k] == part[k]
  }

  /** The body is published unchanged exactly when the caller did not use the key `topic` in it. */
  lemma BodyIsPublishedIff(id: EventId, topic: string, body: Body, from: Option<string>, now: int)
    requires topic != ""
    ensures var row := Enqueued(id, topic, body, from, now);
            && HasTopic(row) && EmissionOf(row).topic == Text(topic)
            && (Carries(EmissionOf(row).payload, body) <==> "topic" !in body)
            && EmissionOf(row).payload.Keys == ENVELOPE_KEYS + (body.Keys - {"topic"})
  {
    var row := Enqueued(id, topic, body, from, now);
    var payload := EmissionOf(row).payload;
    assert "topic" !in payload;
    assert forall k :: k in body && k != "topic" ==> k in payload && payload[k] == body[k];
  }

  predicate AgreesWithEnvelope(body: Body, row: EventRow) {
    forall k :: k in ENVELOPE_KEYS && k in body ==> body[k] == Envelope(row)[k]
  }

  /** The envelope survives exactly when the body does not overlay one of its keys with another value. */
  lemma EnvelopeIsPublishedIff(id: EventId, topic: string, body: Body, from: Option<string>, now: int)
    requires topic != ""
    ensures var row := Enqueued(id, topic, body, from, now);
            Carries(EmissionOf(row).payload, Envelope(row)) <==> AgreesWithEnvelope(body, row)
  {
    var row := Enqueued(id, topic, body, from, now);
    var payload := EmissionOf(row).payload;
    forall k | k in ENVELOPE_KEYS
      ensures k in payload && payload[k] == if k in body then body[k] else Envelope(row)[k]
    {
    }
    assert Envelope(row).Keys == ENVELOPE_KEYS;
  }

  /** The message, key by key: consumers find the row's id, time, contract version and actor in it. */
  lemma MessageOfEnqueued(id: EventId, topic: string, body: Body, from: Option<string>, now: int)
    requires topic != ""
    ensures HasTopic(Enqueued(id, topic, body, from, now))
    ensures var m := EmissionOf(Enqueued(id, topic, body, from, now));
            && m.id == id && m.topic == Text(topic)
            && (forall key :: key in body && key != "topic" ==> key in m.payload && m.payload[key] == body[key])
            && ("eventId" !in body ==> "eventId" in m.payload && m.payload["eventId"] == Reference(id))
            && ("occurredAt" !in body ==> "occurredAt" in m.payload && m.payload["occurredAt"] == Number(now))
            && ("version" !in body ==> "version" in m.payload && m.payload["version"] == Number(1))
            && ("actorUserId" !in body ==> "actorUserId" in m.payload && m.payload["actorUserId"] == ActorOf(from))
            && "topic" !in m.payload
  {
    BodyIsPublishedIff(id, topic, body, from, now);
  }

  function ActorOf(from: Option<string>): Value {
    match from
    case Some(userId) => Text(userId)
    case None => Null
  }

  /** The three bodies the platform enqueues. */
  function ApprovalBody(documentId: string, fileName: string, collaboratorId: string, note: Option<string>): Body {
    map["documentId" := Text(documentId), "fileName" := Text(fileName), "collaboratorId" := Text(collaboratorId),
        "resolutionNote" := if note.Some? then Text(note.value) else Null]
  }

  function JoinedBody(organizationId: string, accountId: string, userId: string, roleId: Option<string>): Body {
    map["organizationId" := Text(organizationId), "accountId" := Text(accountId), "memberUserId" := Text(userId),
        "roleId" := if roleId.Some? then Text(roleId.value) else Null]
  }

  function NotificationBody(notificationId: string, documentId: string, collaboratorId: string, actorType: string,
                            channel: string, timestamp: string): Body {
    map["notificationId" := Text(notificationId), "documentId" := Text(documentId),
        "collaboratorId" := Text(collaboratorId), "actorType" := Text(actorType),
        "notificationChannelSource" := Text(channel), "timestamp" := Text(timestamp)]
  }

  ghost predicate IsClientBody(body: Body) {
    || (exists d, f, c, n :: body == ApprovalBody(d, f, c, n))
    || (exists o, a, u, r :: body == JoinedBody(o, a, u, r))
    || (exists n, d, c, t, s, w :: body == NotificationBody(n, d, c, t, s, w))
  }

  /** The keys that flush gives a meaning. */
  predicate IsReserved(key: string) {
    key in ENVELOPE_KEYS || key == "topic"
  }

  predicate HasNoReservedKey(body: Body) {
    forall key :: key in body ==> !IsReserved(key)
  }

  /** Reserved keys, seen by their lengths and first letters. */
  lemma ReservedKeyShape(key: string)
    requires IsReserved(key)
    ensures |key| == 5 || |key| == 7 || (|key| == 10 && key[0] == 'o') || (|key| == 11 && key[0] == 'a')
    ensures key[0] == 'e' || key[0] == 'o' || key[0] == 'v' || key[0] == 'a' || key[0] == 't'
  {
  }

  lemma ApprovalBodyIsClean(documentId: string, fileName: string, collaboratorId: string, note: Option<string>)
    ensures HasNoReservedKey(ApprovalBody(documentId, fileName, collaboratorId, note))
  {
    forall key | key in ApprovalBody(documentId, fileName, collaboratorId, note) ensures !IsReserved(key) {
      if IsReserved(key) {
        ReservedKeyShape(key);
      }
    }
  }

  lemma JoinedBodyIsClean(organizationId: string, accountId: string, userId: string, roleId: Option<string>)
    ensures HasNoReservedKey(JoinedBody(organizationId, accountId, userId, roleId))
  {
    forall key | key in JoinedBody(organizationId, accountId, userId, roleId) ensures !IsReserved(key) {
      if IsReserved(key) {
        ReservedKeyShape(key);
      }
    }
  }

  lemma NotificationBodyIsClean(notificationId: string, documentId: string, collaboratorId: string, actorType: string,
                                channel: string, timestamp: string)
    ensures HasNoReservedKey(NotificationBody(notificationId, documentId, collaboratorId, actorType, channel, timestamp))
  {
    forall key | key in NotificationBody(notificationId, documentId, collaboratorId, actorType, channel, timestamp)
      ensures !IsReserved(key)
    {
      if IsReserved(key) {
        ReservedKeyShape(key);
      }
    }
  }

  lemma ClientBodyIsClean(body: Body)
    requires IsClientBody(body)
    ensures HasNoReservedKey(body)
  {
    if d, f, c, n :| body == ApprovalBody(d, f, c, n) {
      ApprovalBodyIsClean(d, f, c, n);
    } else if o, a, u, r :| body == JoinedBody(o, a, u, r) {
      JoinedBodyIsClean(o, a, u, r);
    } else {
      var n, d, c, t, s, w :| body == NotificationBody(n, d, c, t, s, w);
      NotificationBodyIsClean(n, d, c, t, s, w);
    }
  }

  /** What every client enqueues is published whole, and with the whole envelope. */
  lemma ClientsPublishBodyAndEnvelope(id: EventId, topic: string, body: Body, from: Option<string>, now: int)
    requires topic != "" && IsClientBody(body)
    ensures var row := Enqueued(id, topic, body, from, now);
            Carries(EmissionOf(row).payload, body) && Carries(EmissionOf(row).payload, Envelope(row))
    ensures EmissionOf(Enqueued(id, topic, body, from, now)).payload
         == body + map["eventId" := Reference(id), "occurredAt" := Number(now), "version" := Number(1),
                       "actorUserId" := ActorOf(from)]
  {
    ClientBodyIsClean(body);
    CleanBodyIsPublished(id, topic, body, from, now);
    CleanBodyPlusEnvelope(id, topic, body, from, now);
  }

  lemma CleanBodyPlusEnvelope(id: EventId, topic: string, body: Body, from: Option<string>, now: int)
    requires topic != "" && HasNoReservedKey(body)
    ensures EmissionOf(Enqueued(id, topic, body, from, now)).payload
         == body + map["eventId" := Reference(id), "occurredAt" := Number(now), "version" := Number(1),
                       "actorUserId" := ActorOf(from)]
  {
    var row := Enqueued(id, topic, body, from, now);
    var envelope: Body := map["eventId" := Reference(id), "occurredAt" := Number(now), "version" := Number(1),
                              "actorUserId" := ActorOf(from)];
    assert Envelope(row) == envelope;
    assert IsReserved("topic");
    assert Metadata(row) - {"topic"} == body;
    forall key | key in envelope ensures key !in body {
      assert IsReserved(key);
    }
    assert envelope + body == body + envelope;
  }

  lemma CleanBodyIsPublished(id: EventId, topic: string, body: Body, from: Option<string>, now: int)
    requires topic != "" && HasNoReservedKey(body)
    ensures var row := Enqueued(id, topic, body, from, now);
            Carries(EmissionOf(row).payload, body) && Carries(EmissionOf(row).payload, Envelope(row))
  {
    BodyIsPublishedIff(id, topic, body, from, now);
    EnvelopeIsPublishedIff(id, topic, body, from, now);
    assert IsReserved("topic");
    forall key | key in ENVELOPE_KEYS ensures key !in body {
      assert IsReserved(key);
    }
  }

  // ------------------------------------------------------------------------------------------
  // The batch a flush reads.
  // ------------------------------------------------------------------------------------------

  type Events = map<EventId, EventRow>

  ghost predicate WellKeyed(events: Events) {
    forall id :: id in events ==> events[id].id == id
  }

  function Pending(events: Events): set<EventId> {
    set id | id in events && events[id].publishedAt.None?
  }

  predicate DistinctIds(batch: seq<EventRow>) {
    forall i, j :: 0 <= i < j < |batch| ==> batch[i].id != batch[j].id
  }

  function Ids(batch: seq<EventRow>): set<EventId> {
    set row | row in batch :: row.id
  }

  /** A legal answer to "the `limit` oldest pending rows"; equal ages in any order. */
  ghost predicate IsOldest(events: Events, batch: seq<EventRow>, limit: nat) {
    && DistinctIds(batch)
    && (forall row :: row in batch ==> row.id in Pending(events) && events[row.id] == row)
    && (forall i, j :: 0 <= i < j < |batch| ==> batch[i].createdAt <= batch[j].createdAt)
    && |batch| <= limit
    && (|batch| < limit ==> Pending(events) <= Ids(batch))
    && forall id, row :: id in Pending(events) && id !in Ids(batch) && row in batch ==> row.createdAt <= events[id].createdAt
  }

  ghost predicate IsOldestBatch(events: Events, batch: seq<EventRow>) {
    IsOldest(events, batch, PENDING_PUBLICATION_BATCH)
  }

  // ------------------------------------------------------------------------------------------
  // One flush.
  // ------------------------------------------------------------------------------------------

  /** Which of the two calls fail, per event, while a flush runs. */
  datatype Faults = Faults(emit: set<EventId>, update: set<EventId>)

  /** The rows whose mark is written: nothing to publish, or handed over; and the update worked. */
  predicate Retires(faults: Faults, row: EventRow) {
    row.id !in faults.update && (HasTopic(row) ==> row.id !in faults.emit)
  }

  function Retired(faults: Faults, batch: seq<EventRow>): set<EventId> {
    set row | row in batch && Retires(faults, row) :: row.id
  }

  function Mark(events: Events, ids: set<EventId>, now: int): Events {
    map id | id in events :: if id in ids then events[id].(publishedAt := Some(now)) else events[id]
  }

  /** The messages handed to Kafka, in batch order. */
  function Emissions(faults: Faults, batch: seq<EventRow>): seq<Emission> {
    if batch == [] then []
    else
      var rest, row := batch[..|batch| - 1], batch[|batch| - 1];
      Emissions(faults, rest) + (if HasTopic(row) && row.id !in faults.emit then [EmissionOf(row)] else [])
  }

  /** How many rows were both handed over and marked. */
  function PublishedCount(faults: Faults, batch: seq<EventRow>): nat {
    if batch == [] then 0
    else
      var rest, row := batch[..|batch| - 1], batch[|batch| - 1];
      PublishedCount(faults, rest) + (if HasTopic(row) && Retires(faults, row) then 1 else 0)
  }

  class OutboxService {
    var events: Events
    var kafka: seq<Emission>

    constructor ()
      ensures events == map[] && kafka == []
    {
      events, kafka := map[], [];
    }

    /** Runs with the caller's transaction; `id` is the uuid the database generates. */
    method Enqueue(id: EventId, topic: string, body: Body, from: Option<string>, now: int) returns (row: EventRow)
      requires id !in events
      modifies this`events
      ensures row == Enqueued(id, topic, body, from, now) && events == old(events)[id := row]
      ensures id in Pending(events) && (HasTopic(row) <==> topic != "")
    {
      row := EventRow(id, Some(body["topic" := Text(topic)]), from, EVENT_CONTRACT_VERSION, now, None);
      events := events[id := row];
    }

    method MarkPublished(id: EventId, now: int)
      requires id in events
      modifies this`events
      ensures events == Mark(old(events), {id}, now)
    {
      events := events[id := events[id].(publishedAt := Some(now))];
    }

    /** One row: hand over what has a topic, then write the mark. A failure leaves the row pending. */
    method Publish(event: EventRow, faults: Faults, now: int) returns (published: nat)
      requires event.id in events
      modifies this
      ensures events == if Retires(faults, event) then Mark(old(events), {event.id}, now) else old(events)
      ensures kafka == if HasTopic(event) && event.id !in faults.emit then old(kafka) + [EmissionOf(event)] else old(kafka)
      ensures published == if HasTopic(event) && Retires(faults, event) then 1 else 0
    {
      published := 0;
      if HasTopic(event) {
        if event.id in faults.emit {
          return;
        }
        kafka := kafka + [EmissionOf(event)];
        if event.id !in faults.update {
          MarkPublished(event.id, now);
          published := 1;
        }
      } else if event.id !in faults.update {
        MarkPublished(event.id, now);
      }
    }

    /** The body of the flush: every row of the batch is attempted, and no failure stops the others. */
    method Drain(pending: seq<EventRow>, faults: Faults, now: int) returns (published: nat)
      requires forall row :: row in pending ==> row.id in events
      modifies this
      ensures events == Mark(old(events), Retired(faults, pending), now)
      ensures kafka == old(kafka) + Emissions(faults, pending)
      ensures published == PublishedCount(faults, pending)
    {
      published := 0;
      MarkNone(events, now);
      ghost var before, log := events, kafka;
      for i := 0 to |pending|
        invariant IsDrained(before, log, faults, pending[..i], now, events, kafka, published)
      {
        assert pending[i] in pending;
        ghost var marked, sent, count := events, kafka, published;
        var more := Publish(pending[i], faults, now);
        published := published + more;
        DrainedOneMore(before, log, faults, pending, i, now, marked, sent, count, events, kafka, published);
      }
      assert pending[..|pending|] == pending;
    }

    /** `pending` is what the database answers to the query for the oldest pending rows. */
    method Flush(pending: seq<EventRow>, faults: Faults, now: int) returns (published: nat)
      requires WellKeyed(events) && IsOldestBatch(events, pending)
      modifies this
      ensures events == Mark(old(events), Retired(faults, pending), now) && WellKeyed(events)
      ensures kafka == old(kafka) + Emissions(faults, pending)
      ensures published == PublishedCount(faults, pending)
      ensures Pending(events) == old(Pending(events)) - Retired(faults, pending)
      ensures forall row :: row in pending ==>
        (row.id in Pending(events) <==> row.id in faults.update || (HasTopic(row) && row.id in faults.emit))
      ensures forall row :: row in pending && HasTopic(row) && row.id !in Pending(events) ==>
        EmissionOf(row) in kafka[|old(kafka)|..]
      ensures forall id :: id in events ==> IsMarkedOrSame(old(events), events, id, now)
      ensures published == |Announced(faults, pending)|
    {
      CountIsOfAnnounced(faults, pending);
      published := Drain(pending, faults, now);
      PendingAfterMark(old(events), Retired(faults, pending), now);
      assert kafka[|old(kafka)|..] == Emissions(faults, pending);
      forall row | row in pending
        ensures row.id in Pending(events) <==> row.id in faults.update || (HasTopic(row) && row.id in faults.emit)
        ensures HasTopic(row) && row.id !in Pending(events) ==> EmissionOf(row) in kafka[|old(kafka)|..]
      {
        MarkedMeansHandedOver(faults, pending, row);
      }
    }
  }

  /** The row is as it was, or it was pending and has its mark. */
  ghost predicate IsMarkedOrSame(before: Events, after: Events, id: EventId, now: int)
    requires id in after
  {
    && id in before
    && (after[id] == before[id] || (before[id].publishedAt.None? && after[id] == before[id].(publishedAt := Some(now))))
  }

  lemma {:induction false} HandedOverIsInTheLog(faults: Faults, batch: seq<EventRow>, row: EventRow)
    requires row in batch && HasTopic(row) && row.id !in faults.emit
    ensures EmissionOf(row) in Emissions(faults, batch)
  {
    var rest, last := batch[..|batch| - 1], batch[|batch| - 1];
    if row in rest {
      HandedOverIsInTheLog(faults, rest, row);
    } else {
      assert batch == rest + [last];
    }
  }

  /** The rows of the batch that have a topic and whose calls both work. */
  function Announced(faults: Faults, batch: seq<EventRow>): set<EventId> {
    set row | row in batch && HasTopic(row) && row.id !in faults.emit && row.id !in faults.update :: row.id
  }

  lemma {:induction false} CountIsOfAnnounced(faults: Faults, batch: seq<EventRow>)
    requires DistinctIds(batch)
    ensures PublishedCount(faults, batch) == |Announced(faults, batch)|
  {
    if batch != [] {
      var rest, last := batch[..|batch| - 1], batch[|batch| - 1];
      CountIsOfAnnounced(faults, rest);
      AnnouncedNext(faults, rest, last);
      assert batch == rest + [last];
    }
  }

  lemma AnnouncedNext(faults: Faults, rest: seq<EventRow>, last: EventRow)
    requires forall row :: row in rest ==> row.id != last.id
    ensures last.id !in Announced(faults, rest)
    ensures Announced(faults, rest + [last])
         == Announced(faults, rest)
          + if HasTopic(last) && last.id !in faults.emit && last.id !in faults.update then {last.id} else {}
  {
    var more := if HasTopic(last) && last.id !in faults.emit && last.id !in faults.update then {last.id} else {};
    forall id | id in Announced(faults, rest) + more ensures id in Announced(faults, rest + [last]) {
      if id in Announced(faults, rest) {
        var row :| row in rest && row.id == id && HasTopic(row);
        assert row in rest + [last];
      } else {
        assert last in rest + [last];
      }
    }
  }

  /** Exactly the rows whose calls work are marked, and one with a topic not without its message. */
  lemma MarkedMeansHandedOver(faults: Faults, batch: seq<EventRow>, row: EventRow)
    requires DistinctIds(batch) && row in batch
    ensures row.id !in Retired(faults, batch) <==> row.id in faults.update || (HasTopic(row) && row.id in faults.emit)
    ensures HasTopic(row) && row.id in Retired(faults, batch) ==> EmissionOf(row) in Emissions(faults, batch)
  {
    if row.id in Retired(faults, batch) {
      var other :| other in batch && Retires(faults, other) && other.id == row.id;
      assert other == row;
    }
    if HasTopic(row) && row.id !in faults.emit {
      HandedOverIsInTheLog(faults, batch, row);
    }
  }

  lemma MarkNone(events: Events, now: int)
    ensures Mark(events, Retired(Faults({}, {}), []), now) == events
    ensures forall faults :: Retired(faults, []) == {}
  {
    assert forall faults :: Retired(faults, []) == {};
    assert Mark(events, {}, now) == events;
  }

  lemma MarkMore(events: Events, ids: set<EventId>, more: set<EventId>, now: int)
    ensures Mark(Mark(events, ids, now), more, now) == Mark(events, ids + more, now)
  {
  }

  lemma PendingAfterMark(events: Events, ids: set<EventId>, now: int)
    ensures Pending(Mark(events, ids, now)) == Pending(events) - ids
    ensures WellKeyed(events) ==> WellKeyed(Mark(events, ids, now))
  {
  }

  lemma BatchStep(faults: Faults, batch: seq<EventRow>, i: nat)
    requires i < |batch|
    ensures Retired(faults, batch[..i + 1])
         == if Retires(faults, batch[i]) then Retired(faults, batch[..i]) + {batch[i].id} else Retired(faults, batch[..i])
    ensures Emissions(faults, batch[..i + 1])
         == if HasTopic(batch[i]) && batch[i].id !in faults.emit then Emissions(faults, batch[..i]) + [EmissionOf(batch[i])]
            else Emissions(faults, batch[..i])
    ensures PublishedCount(faults, batch[..i + 1])
         == PublishedCount(faults, batch[..i]) + if HasTopic(batch[i]) && Retires(faults, batch[i]) then 1 else 0
  {
    assert batch[..i + 1][..i] == batch[..i];
    assert batch[..i + 1] == batch[..i] + [batch[i]];
  }

  /** The table, the log and the counter after the rows of `batch`. */
  ghost predicate IsDrained(events: Events, kafka: seq<Emission>, faults: Faults, batch: seq<EventRow>, now: int,
                            events': Events, kafka': seq<Emission>, published: nat) {
    && events' == Mark(events, Retired(faults, batch), now)
    && kafka' == kafka + Emissions(faults, batch)
    && published == PublishedCount(faults, batch)
  }

  lemma DrainedOneMore(events: Events, kafka: seq<Emission>, faults: Faults, batch: seq<EventRow>, i: nat, now: int,
                       marked: Events, sent: seq<Emission>, count: nat,
                       events': Events, kafka': seq<Emission>, published: nat)
    requires i < |batch| && IsDrained(events, kafka, faults, batch[..i], now, marked, sent, count)
    requires events' == if Retires(faults, batch[i]) then Mark(marked, {batch[i].id}, now) else marked
    requires kafka' == if HasTopic(batch[i]) && batch[i].id !in faults.emit then sent + [EmissionOf(batch[i])] else sent
    requires published == count + if HasTopic(batch[i]) && Retires(faults, batch[i]) then 1 else 0
    ensures IsDrained(events, kafka, faults, batch[..i + 1], now, events', kafka', published)
  {
    BatchStep(faults, batch, i);
    MarkMore(events, Retired(faults, batch[..i]), {batch[i].id}, now);
  }

  // ------------------------------------------------------------------------------------------
  // Progress.
  // ------------------------------------------------------------------------------------------

  lemma IdsAppend(batch: seq<EventRow>, row: EventRow)
    ensures Ids(batch + [row]) == Ids(batch) + {row.id}
  {
    forall id | id in Ids(batch) + {row.id} ensures id in Ids(batch + [row]) {
      if id != row.id {
        var known :| known in batch && known.id == id;
        assert known in batch + [row];
      } else {
        assert row in batch + [row];
      }
    }
  }

  lemma {:induction false} DistinctIdsCount(batch: seq<EventRow>)
    requires DistinctIds(batch)
    ensures |Ids(batch)| == |batch|
  {
    if batch != [] {
      var rest, row := batch[..|batch| - 1], batch[|batch| - 1];
      DistinctIdsCount(rest);
      assert row.id !in Ids(rest);
      assert batch == rest + [row];
      IdsAppend(rest, row);
    }
  }

  /** The rows a flush can retire: those whose calls do not fail. */
  function Publishable(events: Events, poison: set<EventId>): set<EventId> {
    Pending(events) - poison
  }

  /**
    With fewer than twenty pending rows that always fail, every flush reads a row it can retire,
    if there is one.
   */
  lemma BatchReachesPublishable(events: Events, batch: seq<EventRow>, poison: set<EventId>)
    requires IsOldestBatch(events, batch)
    requires |Pending(events) * poison| < PENDING_PUBLICATION_BATCH
    requires Publishable(events, poison) != {}
    ensures exists row :: row in batch && row.id !in poison
  {
    var id :| id in Publishable(events, poison);
    var reached := id;
    if |batch| == PENDING_PUBLICATION_BATCH {
      DistinctIdsCount(batch);
      if Ids(batch) <= Pending(events) * poison {
        SubsetIsSmaller(Ids(batch), Pending(events) * poison);
      }
      reached :| reached in Ids(batch) && reached !in Pending(events) * poison;
    }
    var row :| row in batch && row.id == reached;
  }

  /** The table after a flush in which exactly the calls on `poison` rows fail. */
  function AfterFlush(events: Events, batch: seq<EventRow>, poison: set<EventId>, now: int): Events {
    Mark(events, Retired(Faults(poison, poison), batch), now)
  }

  lemma FlushRetires(events: Events, batch: seq<EventRow>, poison: set<EventId>, now: int)
    requires IsOldestBatch(events, batch)
    ensures var after := AfterFlush(events, batch, poison, now);
            && Publishable(after, poison) == Publishable(events, poison) - Ids(batch)
            && Pending(after) * poison == Pending(events) * poison
  {
    var retired := Retired(Faults(poison, poison), batch);
    forall id ensures id in retired <==> id in Ids(batch) && id !in poison {
      if id in Ids(batch) && id !in poison {
        var row :| row in batch && row.id == id;
        assert Retires(Faults(poison, poison), row);
      }
    }
    PendingAfterMark(events, retired, now);
  }

  /** The pending rows no younger than `limit`. */
  function OldPending(events: Events, limit: int): set<EventId> {
    set id | id in events && events[id].publishedAt.None? && events[id].createdAt <= limit
  }

  function OldPublishable(events: Events, poison: set<EventId>, limit: int): set<EventId> {
    OldPending(events, limit) - poison
  }

  /** Between the flushes others may enqueue. */
  datatype Happening = Flushed(batch: seq<EventRow>, now: int) | Arrived(row: EventRow)

  ghost predicate Happens(before: Events, h: Happening, poison: set<EventId>, limit: int, after: Events) {
    match h
    case Flushed(batch, now) => IsOldestBatch(before, batch) && after == AfterFlush(before, batch, poison, now)
    case Arrived(row) =>
      row.id !in before && row.createdAt > limit && row.publishedAt.None? && after == before[row.id := row]
  }

  /** Flushes in which exactly the calls on `poison` rows fail, and rows enqueued after the time `limit`. */
  ghost predicate IsServing(run: seq<Events>, happenings: seq<Happening>, poison: set<EventId>, limit: int) {
    && |run| == |happenings| + 1
    && forall i :: 0 <= i < |happenings| ==> Happens(run[i], happenings[i], poison, limit, run[i + 1])
  }

  function Flushes(happenings: seq<Happening>): nat {
    if happenings == [] then 0
    else Flushes(happenings[..|happenings| - 1]) + if happenings[|happenings| - 1].Flushed? then 1 else 0
  }

  /** A flush takes no young row while an old one waits outside its batch. */
  lemma BatchReachesOld(events: Events, batch: seq<EventRow>, poison: set<EventId>, limit: int)
    requires IsOldestBatch(events, batch)
    requires |OldPending(events, limit) * poison| < PENDING_PUBLICATION_BATCH
    requires OldPublishable(events, poison, limit) != {}
    ensures exists row :: row in batch && row.id in OldPublishable(events, poison, limit)
  {
    var id :| id in OldPublishable(events, poison, limit);
    if id in Ids(batch) {
      var row :| row in batch && row.id == id;
    } else {
      assert id in Pending(events);
      assert forall row :: row in batch ==> row.id in OldPending(events, limit);
      DistinctIdsCount(batch);
      if Ids(batch) <= OldPending(events, limit) * poison {
        SubsetIsSmaller(Ids(batch), OldPending(events, limit) * poison);
      }
      var reached :| reached in Ids(batch) && reached !in OldPending(events, limit) * poison;
      var row :| row in batch && row.id == reached;
    }
  }

  lemma FlushRetiresOld(events: Events, batch: seq<EventRow>, poison: set<EventId>, limit: int, now: int)
    requires IsOldestBatch(events, batch)
    ensures var after := AfterFlush(events, batch, poison, now);
            && OldPublishable(after, poison, limit) == OldPublishable(events, poison, limit) - Ids(batch)
            && OldPending(after, limit) * poison == OldPending(events, limit) * poison
  {
    var after := AfterFlush(events, batch, poison, now);
    FlushRetires(events, batch, poison, now);
    assert forall id :: id in events ==> after[id].createdAt == events[id].createdAt;
    forall id ensures id in OldPending(after, limit) <==> id in Pending(after) && events[id].createdAt <= limit {
    }
    forall id ensures id in OldPublishable(after, poison, limit) <==> id in OldPublishable(events, poison, limit) - Ids(batch) {
      assert id in OldPublishable(after, poison, limit) <==> id in Publishable(after, poison) && events[id].createdAt <= limit;
    }
    forall id ensures id in OldPending(after, limit) * poison <==> id in OldPending(events, limit) * poison {
      assert id in Pending(after) * poison <==> id in Pending(events) * poison;
    }
  }

  lemma ArrivalKeepsOld(events: Events, row: EventRow, limit: int)
    requires row.id !in events && row.createdAt > limit
    ensures OldPending(events[row.id := row], limit) == OldPending(events, limit)
  {
  }

  /** One happening: a flush retires an old publishable row if there is one, and nothing adds to them. */
  lemma HappeningDrains(before: Events, h: Happening, poison: set<EventId>, limit: int, after: Events)
    requires Happens(before, h, poison, limit, after)
    requires |OldPending(before, limit) * poison| < PENDING_PUBLICATION_BATCH
    ensures OldPending(after, limit) * poison == OldPending(before, limit) * poison
    ensures OldPublishable(after, poison, limit) <= OldPublishable(before, poison, limit)
    ensures |OldPublishable(after, poison, limit)| <= |OldPublishable(before, poison, limit)|
    ensures h.Flushed? && OldPublishable(before, poison, limit) != {} ==>
              |OldPublishable(after, poison, limit)| < |OldPublishable(before, poison, limit)|
  {
    var waiting, left := OldPublishable(before, poison, limit), OldPublishable(after, poison, limit);
    match h
    case Arrived(row) => ArrivalKeepsOld(before, row, limit);
    case Flushed(batch, now) =>
      FlushRetiresOld(before, batch, poison, limit, now);
      SubsetIsSmaller(left, waiting);
      if waiting != {} {
        BatchReachesOld(before, batch, poison, limit);
        var row :| row in batch && row.id in waiting;
        SubsetIsSmaller(left, waiting - {row.id});
      }
  }

  /**
    Every publishable row of the moment `limit` is published after at most as many flushes as there
    are such rows, whatever is enqueued meanwhile and however many of the younger rows fail.
   */
  lemma {:induction false} FlushesDrain(run: seq<Events>, happenings: seq<Happening>, poison: set<EventId>, limit: int, i: nat)
    requires IsServing(run, happenings, poison, limit) && i < |run|
    requires |OldPending(run[0], limit) * poison| < PENDING_PUBLICATION_BATCH
    ensures OldPending(run[i], limit) * poison == OldPending(run[0], limit) * poison
    ensures OldPublishable(run[i], poison, limit) <= OldPublishable(run[0], poison, limit)
    ensures || OldPublishable(run[i], poison, limit) == {}
            || |OldPublishable(run[i], poison, limit)| <= |OldPublishable(run[0], poison, limit)| - Flushes(happenings[..i])
  {
    if i > 0 {
      FlushesDrain(run, happenings, poison, limit, i - 1);
      HappeningDrains(run[i - 1], happenings[i - 1], poison, limit, run[i - 1 + 1]);
      FlushesNext(happenings, i);
    }
  }

  lemma FlushesNext(happenings: seq<Happening>, i: nat)
    requires 0 < i <= |happenings|
    ensures Flushes(happenings[..i]) == Flushes(happenings[..i - 1]) + if happenings[i - 1].Flushed? then 1 else 0
  {
    assert happenings[..i][..i - 1] == happenings[..i - 1];
  }

  /** `k` rows that always fail never stop a flush from retiring some publishable row. */
  ghost predicate NeverStarves(k: nat) {
    forall events: Events, batch: seq<EventRow>, poison: set<EventId> ::
      WellKeyed(events) && IsOldestBatch(events, batch)
      && |Pending(events) * poison| == k && Publishable(events, poison) != {}
      ==> exists row :: row in batch && row.id !in poison
  }

  /** Twenty is exactly the number of permanently failing rows that starves the outbox. */
  lemma StarvationBound(k: nat)
    ensures NeverStarves(k) <==> k < 20
  {
    if k < PENDING_PUBLICATION_BATCH {
      forall events: Events, batch: seq<EventRow>, poison: set<EventId> |
        WellKeyed(events) && IsOldestBatch(events, batch)
        && |Pending(events) * poison| == k && Publishable(events, poison) != {}
        ensures exists row :: row in batch && row.id !in poison
      {
        BatchReachesPublishable(events, batch, poison);
      }
    } else {
      var events, batch, poison := Starved(k, PENDING_PUBLICATION_BATCH);
      assert IsOldestBatch(events, batch) && Publishable(events, poison) != {};
    }
  }

  function RowAt(id: EventId): EventRow {
    EventRow(id, None, None, 1, id, None)
  }

  function FirstIds(n: nat): (ids: set<EventId>)
    ensures forall id: EventId :: id in ids <==> id < n
    ensures |ids| == n
  {
    if n == 0 then {} else FirstIds(n - 1) + {n - 1}
  }

  function RowsUpTo(n: nat): (events: Events)
    ensures Pending(events) == FirstIds(n) && WellKeyed(events)
    ensures forall id: EventId :: id < n ==> id in events && events[id] == RowAt(id)
  {
    map id | id in FirstIds(n) :: RowAt(id)
  }

  function OldestRows(n: nat): (batch: seq<EventRow>)
    ensures |batch| == n && forall i: nat :: i < n ==> batch[i] == RowAt(i)
  {
    if n == 0 then [] else OldestRows(n - 1) + [RowAt(n - 1)]
  }

  lemma {:induction false} OldestIds(n: nat)
    ensures Ids(OldestRows(n)) == FirstIds(n)
  {
    if n > 0 {
      OldestIds(n - 1);
      IdsAppend(OldestRows(n - 1), RowAt(n - 1));
      assert OldestRows(n) == OldestRows(n - 1) + [RowAt(n - 1)] && RowAt(n - 1).id == n - 1;
    }
  }

  lemma OldestRowsAreABatch(n: nat, limit: nat)
    requires limit < n
    ensures IsOldest(RowsUpTo(n), OldestRows(limit), limit)
    ensures forall row :: row in OldestRows(limit) ==> row.id < limit
  {
    OldestIds(limit);
    forall row | row in OldestRows(limit) ensures row.id < limit {
      assert row.id in Ids(OldestRows(limit));
    }
  }

  /** `k` failing rows, all older than the one row that could be published. */
  lemma Starved(k: nat, limit: nat) returns (events: Events, batch: seq<EventRow>, poison: set<EventId>)
    requires limit <= k
    ensures WellKeyed(events) && IsOldest(events, batch, limit)
    ensures |Pending(events) * poison| == k && k in Publishable(events, poison)
    ensures forall row :: row in batch ==> row.id in poison
  {
    poison, events, batch := FirstIds(k), RowsUpTo(k + 1), OldestRows(limit);
    OldestRowsAreABatch(k + 1, limit);
    assert Pending(events) * poison == poison;
  }
}
