/** The gateway's message bus as the two stages see it: something messages
    are published to, in order. */
module Bus {
  import opened Values

  /** How a call into a stage ends: normally, or with an exception. */
  datatype Completion = Normal | Abrupt(error: JsError)

  class MessageBus {
    /** Every message published so far, oldest first. */
    var published: seq<Value>

    constructor ()
      ensures published == []
    {
      published := [];
    }

    /** `messageBus.publish(message)`. */
    method Publish(message: Value)
      modifies this
      ensures published == old(published) + [message]
    {
      published := published + [message];
    }
  }
}
