/** The MQTT side of the integration as the entities see it: a message is a
    topic and a text payload, and publishing appends the message to the
    broker's outbox. Delivery to subscribers is a direct call of an entity's
    message handler. */
module Mqtt {

  datatype Message = Message(topic: string, payload: string)

  /** The broker connection shared by all entities; `outbox` holds every
      message published so far, oldest first. */
  class Broker {
    var outbox: seq<Message>

    constructor ()
      ensures outbox == []
    {
      outbox := [];
    }

    /** `mqtt.async_publish(hass, topic, payload)`: one more message, nothing else changes. */
    method Publish(topic: string, payload: string)
      modifies this
      ensures outbox == old(outbox) + [Message(topic, payload)]
    {
      outbox := outbox + [Message(topic, payload)];
    }
  }
}
