/**
 * backend/src/pubsub.ts: the event names, and the publish call of the
 * graphql-subscriptions PubSub as an append to a log of published events.
 * Delivery to subscribers is not modelled.
 */
module PubSub {
  import opened Types

  const MESSAGE_ADDED: string := "MESSAGE_ADDED"

  /** The payload object `{ messageAdded: message }`. */
  datatype Payload = MessageAdded(messageAdded: Message)

  datatype Event = Event(topic: string, payload: Payload)

  /** The process-wide `pubsub` instance. */
  class Bus {
    var published: seq<Event>

    constructor ()
      ensures published == []
    {
      published := [];
    }

    /** `pubsub.publish(topic, payload)`: one event is appended and nothing else changes. */
    method Publish(topic: string, payload: Payload)
      modifies this
      ensures published == old(published) + [Event(topic, payload)]
    {
      published := published + [Event(topic, payload)];
    }
  }
}
