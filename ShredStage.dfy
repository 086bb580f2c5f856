/** The shredder module object: `create` and `receive`, proved to publish
    what `Shred` and `Fanout` describe. */
module ShredStage {
  import opened Values
  import opened Shred
  import opened Bus

  class Shredder {
    var messageBus: MessageBus?
    var configuration: Option<Value>

    /** The module object before `create`: both fields `null`. */
    constructor ()
      ensures messageBus == null && configuration == None
    {
      messageBus := null;
      configuration := None;
    }

    /** `create(messageBus, configuration)`: stores both, whatever they are,
        and always succeeds. */
    method Create(bus: MessageBus?, config: Option<Value>) returns (ok: bool)
      modifies this
      ensures ok
      ensures messageBus == bus && configuration == config
    {
      messageBus := bus;
      configuration := config;
      return true;
    }

    /** `receive(message)`: publishes every element of the array `shred`
        returns, in order, or else the message itself. An error `shred`
        throws escapes before anything is published; without a bus the
        first publish throws a TypeError. */
    method Receive(message: Value) returns (c: Completion)
      modifies messageBus
      ensures match Shred.Shred(message)
              case Err(e) =>
                c == Abrupt(e) && (messageBus != null ==> messageBus.published == old(messageBus.published))
              case Ok(shredded) =>
                var out := Fanout(shredded, message);
                (messageBus == null ==> c == if out == [] then Normal else Abrupt(TypeError)) &&
                (messageBus != null ==> c == Normal && messageBus.published == old(messageBus.published) + out)
    {
      var shredded := Shred.Shred(message);
      if shredded.Err? {
        return Abrupt(shredded.error);
      }
      if shredded.value.Arr? {
        c := PublishEach(shredded.value.items);
        return;
      }
      if messageBus == null {
        return Abrupt(TypeError);
      }
      messageBus.Publish(message);
      return Normal;
    }

    /** The `forEach` of `receive`: publishes `items` in order; without a
        bus the first publish throws a TypeError. */
    method PublishEach(items: seq<Value>) returns (c: Completion)
      modifies messageBus
      ensures messageBus == null ==> c == if items == [] then Normal else Abrupt(TypeError)
      ensures messageBus != null ==> c == Normal && messageBus.published == old(messageBus.published) + items
    {
      var i := 0;
      while i < |items|
        invariant i <= |items| && (messageBus == null ==> i == 0)
        invariant messageBus != null ==> messageBus.published == old(messageBus.published) + items[..i]
      {
        if messageBus == null {
          return Abrupt(TypeError);
        }
        messageBus.Publish(items[i]);
        assert items[..i + 1] == items[..i] + [items[i]];
        i := i + 1;
      }
      assert items[..i] == items;
      return Normal;
    }
  }
}
