/**
 * The part of an MQTT client the handlers use: the subscriptions it has asked for and the
 * messages it has published, in order. The broker connection itself is not modelled.
 */
module Mqtt {

  datatype Subscription = Subscription(topic: string, qos: int)

  datatype Message = Message(topic: string, payload: string, qos: int)

  class Client {
    var subscriptions: seq<Subscription>
    var outbox: seq<Message>

    constructor ()
      ensures subscriptions == [] && outbox == []
    {
      subscriptions := [];
      outbox := [];
    }

    /** `client.subscribe([(topic, qos), ...])`. */
    method Subscribe(topics: seq<Subscription>)
      modifies this
      ensures subscriptions == old(subscriptions) + topics
      ensures outbox == old(outbox)
    {
      subscriptions := subscriptions + topics;
    }

    /** `client.publish(topic, payload, qos)`. */
    method Publish(topic: string, payload: string, qos: int)
      modifies this
      ensures outbox == old(outbox) + [Message(topic, payload, qos)]
      ensures subscriptions == old(subscriptions)
    {
      outbox := outbox + [Message(topic, payload, qos)];
    }
  }
}
