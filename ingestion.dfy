/**
 * The ingestion handler of `mqtt_handlers.py` (repeated in `project.py`): the subscriptions made
 * on connect, and `on_message`, which stamps a decoded reading with its receipt time and its
 * sensor and appends it to that sensor's collection.
 *
 * `msg.payload.decode('utf-8')` followed by `json.loads` is library code; it enters as the
 * parameter `loads`, `None` standing for any exception either raises. `datetime.now()` enters
 * as the parameter `now`.
 */
module Ingestion {
  import opened Base
  import opened Text
  import opened Clock
  import opened Json
  import opened Mqtt
  import opened ReadingStore

  /** The topic a sensor publishes its readings on: `<sensor>/topic`. */
  function TopicOf(sensorId: string): string
  {
    sensorId + "/topic"
  }

  /** The topics `on_connect` subscribes to, all at QoS 0: `room1/topic`, `room2/topic`, `kitchen/topic`. */
  const SensorTopics: seq<Subscription> :=
    [Subscription(TopicOf("room1"), 0), Subscription(TopicOf("room2"), 0), Subscription(TopicOf("kitchen"), 0)]

  method OnConnect(client: Client)
    modifies client
    ensures client.subscriptions == old(client.subscriptions) + SensorTopics
    ensures client.outbox == old(client.outbox)
  {
    client.Subscribe(SensorTopics);
  }

  /** `topic.split("/")[0]`: the topic up to its first `/`, or all of it when it has none. */
  function SensorId(topic: string): (id: string)
    ensures id <= topic && '/' !in id
    ensures |id| < |topic| ==> topic[|id|] == '/'
  {
    Split(topic, '/')[0]
  }

  lemma SensorIdOfPath(id: string, rest: string)
    requires '/' !in id
    ensures SensorId(id + "/" + rest) == id
  {
    SplitAtFirst(id, rest, '/');
  }

  lemma SensorIdOfPlainTopic(topic: string)
    requires '/' !in topic
    ensures SensorId(topic) == topic
  {
    SplitNoSeparator(topic, '/');
  }

  lemma SensorIdOfTopic(id: string)
    requires '/' !in id
    ensures SensorId(TopicOf(id)) == id
  {
    assert TopicOf(id) == id + "/" + "topic";
    SensorIdOfPath(id, "topic");
  }

  /** Messages on the subscribed topics come from sensors `room1`, `room2` and `kitchen`. */
  lemma SubscribedSensors()
    ensures |SensorTopics| == 3
    ensures SensorId(SensorTopics[0].topic) == "room1"
    ensures SensorId(SensorTopics[1].topic) == "room2"
    ensures SensorId(SensorTopics[2].topic) == "kitchen"
  {
    var ids := ["room1", "room2", "kitchen"];
    assert forall i :: 0 <= i < 3 ==> SensorTopics[i].topic == TopicOf(ids[i]);
    forall i | 0 <= i < 3
      ensures SensorId(TopicOf(ids[i])) == ids[i]
    {
      SensorIdOfTopic(ids[i]);
    }
  }

  /**
   * The document `on_message` stores for a decoded object: `timestamp` set to the receipt time,
   * `position` to the sensor, every other field as received (temp and humidity unchecked).
   */
  function Stamped(fields: map<string, Value>, now: Instant, sensorId: string): (doc: Value)
    ensures doc.Obj? && doc.fields.Keys == fields.Keys + {"timestamp", "position"}
    ensures doc.fields["timestamp"] == Str(Iso(now)) && doc.fields["position"] == Str(sensorId)
    ensures forall k :: k in fields && k != "timestamp" && k != "position" ==> doc.fields[k] == fields[k]
  {
    Obj(fields["timestamp" := Str(Iso(now))]["position" := Str(sensorId)])
  }

  /** A payload `on_message` stores: one that decodes to a JSON object. */
  predicate Storable(decoded: Option<Value>)
  {
    decoded.Some? && decoded.value.Obj?
  }

  /**
   * `insert_one` takes the stamped document of a storable payload: the store does not refuse it
   * for its `_id`.
   */
  predicate Accepted(store: Store, topic: string, decoded: Option<Value>, now: Instant)
  {
    && Storable(decoded)
    && !Rejects(Collection(store, CollectionName(SensorId(topic))), Stamped(decoded.value.fields, now, SensorId(topic)))
  }

  /**
   * The store after `on_message` handled a payload decoding to `decoded` on `topic` at `now`:
   * one document more in the sensor's collection, or no change at all.
   */
  function Ingested(store: Store, topic: string, decoded: Option<Value>, now: Instant): (r: Store)
    ensures Accepted(store, topic, decoded, now) ==>
      Collection(r, CollectionName(SensorId(topic)))
        == Collection(store, CollectionName(SensorId(topic))) + [Stamped(decoded.value.fields, now, SensorId(topic))]
    ensures forall name :: name != CollectionName(SensorId(topic)) ==> Collection(r, name) == Collection(store, name)
    ensures !Accepted(store, topic, decoded, now) ==> r == store
  {
    if Accepted(store, topic, decoded, now) then
      var name := CollectionName(SensorId(topic));
      store[name := Collection(store, name) + [Stamped(decoded.value.fields, now, SensorId(topic))]]
    else store
  }

  /**
   * A decoded object is refused exactly when it carries an `_id` that is an array or that a
   * document of the sensor's collection already has; stamping never touches `_id`.
   */
  lemma AcceptedUnlessIdClash(store: Store, topic: string, decoded: Option<Value>, now: Instant)
    requires Storable(decoded)
    ensures var fields, docs := decoded.value.fields, Collection(store, CollectionName(SensorId(topic)));
      Accepted(store, topic, decoded, now) <==> ("_id" !in fields || (!fields["_id"].Arr? && !IdTaken(docs, fields["_id"])))
  {
    var doc := Stamped(decoded.value.fields, now, SensorId(topic));
    assert "_id" != "timestamp" && "_id" != "position";
    assert Get(doc, "_id") == if "_id" in decoded.value.fields then Some(decoded.value.fields["_id"]) else None;
  }

  /** Handling a message keeps the `_id`s of every collection unique. */
  lemma IngestKeepsIdsUnique(store: Store, topic: string, decoded: Option<Value>, now: Instant)
    requires forall name :: UniqueIds(Collection(store, name))
    ensures forall name :: UniqueIds(Collection(Ingested(store, topic, decoded, now), name))
  {
    if Storable(decoded) {
      var name := CollectionName(SensorId(topic));
      InsertKeepsIdsUnique(Collection(store, name), Stamped(decoded.value.fields, now, SensorId(topic)));
    }
  }

  /**
   * `on_message`: decode, stamp and insert; an exception anywhere (not UTF-8, not JSON, not an
   * object, an `_id` the store refuses) is caught and nothing is inserted.
   */
  method OnMessage(db: Database, topic: string, payload: seq<byte>, now: Instant, loads: seq<byte> -> Option<Value>)
    modifies db
    ensures db.collections == Ingested(old(db.collections), topic, loads(payload), now)
  {
    var decoded := loads(payload);
    if decoded.Some? && decoded.value.Obj? {
      var doc := decoded.value.fields;
      doc := doc["timestamp" := Str(Iso(now))];
      var sensorId := SensorId(topic);
      var name := CollectionName(sensorId);
      doc := doc["position" := Str(sensorId)];
      var inserted := db.InsertOne(name, Obj(doc));
    }
  }

  /**
   * The same message handled twice is stored twice when it carries no `_id`: there is no
   * deduplication. One carrying an `_id` is stored at most once, since the second insert clashes.
   */
  lemma {:induction false} NoDeduplication(store: Store, topic: string, decoded: Option<Value>, now: Instant)
    requires Storable(decoded)
    ensures var name, doc := CollectionName(SensorId(topic)), Stamped(decoded.value.fields, now, SensorId(topic));
      "_id" !in decoded.value.fields ==>
        Collection(Ingested(Ingested(store, topic, decoded, now), topic, decoded, now), name)
          == Collection(store, name) + [doc, doc]
    ensures var once := Ingested(store, topic, decoded, now);
      "_id" in decoded.value.fields ==> Ingested(once, topic, decoded, now) == once
  {
    var name, doc := CollectionName(SensorId(topic)), Stamped(decoded.value.fields, now, SensorId(topic));
    var once := Ingested(store, topic, decoded, now);
    AcceptedUnlessIdClash(store, topic, decoded, now);
    AcceptedUnlessIdClash(once, topic, decoded, now);
    if "_id" !in decoded.value.fields {
      assert Collection(once, name) == Collection(store, name) + [doc];
      assert Collection(store, name) + [doc] + [doc] == Collection(store, name) + [doc, doc];
    } else if Accepted(store, topic, decoded, now) {
      var docs := Collection(once, name);
      assert docs[|docs| - 1] == doc;
      assert "_id" != "timestamp" && "_id" != "position";
      assert IdTaken(docs, decoded.value.fields["_id"]);
    }
  }
}
