/** The batcher module object: its state, `create`, `stashMessage`,
    `receive` and `destroy`, each proved to do what the functions of `Batch`
    describe. */
module BatchStage {
  import opened Values
  import opened KeyOrder
  import opened Batch
  import opened Bus

  /** The table `stashMessage` works on: `{}` when none was installed yet. */
  function TableOf(table: Option<Table>): Table {
    if table.Some? then table.value else EmptyTable()
  }

  /** What a call of `stashMessage` ends with, as a JavaScript completion:
      a returned value or a thrown error. */
  function Reply(outcome: Outcome, message: Value, publishAs: Option<Value>): Result<Value>
    requires outcome.Flushed? ==> outcome.batch != []
  {
    if outcome.Thrown? then Err(outcome.error) else Ok(Returned(outcome, message, publishAs))
  }

  class Batcher {
    var deviceMessageArray: Option<Table>
    var messageBus: MessageBus?
    var configuration: Option<Value>
    var batchCount: Option<Value>
    var excluded: Option<Value>
    var publishAsDevice: Option<Value>
    /** How this module object resolves a message whose `deviceId` already
        has a queue (batch.js:87-88): as written, or as evidently intended. */
    const aliasing: Aliasing

    /** The queue table, once installed, is well formed. */
    predicate Valid()
      reads this
    {
      deviceMessageArray.Some? ==> Batch.Valid(deviceMessageArray.value)
    }

    /** The module object before `create`: every field `null`, and the
        `deviceId` branch read as `mode` says. */
    constructor (mode: Aliasing)
      ensures Valid() && aliasing == mode
      ensures deviceMessageArray == None && messageBus == null && configuration == None
      ensures batchCount == None && excluded == None && publishAsDevice == None
    {
      aliasing := mode;
      deviceMessageArray := None;
      messageBus := null;
      configuration := None;
      batchCount := None;
      excluded := None;
      publishAsDevice := None;
    }

    /** The step `stashMessage` takes on the current table. */
    function StashStep(message: Value, count: Option<Value>, exclude: Option<Value>): Step
      reads this
    {
      Stash(TableOf(deviceMessageArray), message, count, exclude, aliasing)
    }

    /** `create(messageBus, configuration)`: validates the configuration,
        installs an empty table, the count, the exclusions and a complete
        publish-as section, and returns whether the module can run; `log` is
        what it writes to the console. */
    method Create(bus: MessageBus?, config: Option<Value>) returns (ok: bool, log: Option<string>)
      requires Valid()
      modifies this
      ensures Valid()
      ensures log == CreateFailure(bus != null, config) && ok == log.None?
      ensures messageBus == bus && configuration == config
      ensures var accepted := bus != null && Present(config) && Present(Get(config.value, "batchCount"));
              (accepted ==> deviceMessageArray == Some(EmptyTable()) &&
                            batchCount == Get(config.value, "batchCount") &&
                            excluded == Get(config.value, "excluded")) &&
              (!accepted ==> deviceMessageArray == old(deviceMessageArray) &&
                             batchCount == old(batchCount) && excluded == Some(Arr([])))
      ensures var accepted := bus != null && Present(config) && Present(Get(config.value, "batchCount"));
              var pad := if accepted then Get(config.value, "publishAsDevice") else None;
              publishAsDevice == if Present(pad) && CompletePublishAs(pad.value) then pad else old(publishAsDevice)
    {
      excluded := Some(Arr([]));
      messageBus := bus;
      configuration := config;
      if messageBus == null || !Present(configuration) {
        return false, Some(CreateModuleError);
      }
      var cfg := configuration.value;
      if !Present(Get(cfg, "batchCount")) {
        return false, Some(BatchCountError);
      }
      deviceMessageArray := Some(EmptyTable());
      batchCount := Get(cfg, "batchCount");
      excluded := Get(cfg, "excluded");
      var pad := Get(cfg, "publishAsDevice");
      if Present(pad) && CompletePublishAs(pad.value) {
        publishAsDevice := pad;
      } else if Present(pad) {
        return false, Some(PublishAsError);
      }
      return true, None;
    }

    /** `stashMessage(message, batchCount, excluded)`: files the message
        under its device and returns what `Stash` says, the frame built with
        this module's publish-as section. */
    method StashMessage(message: Value, count: Option<Value>, exclude: Option<Value>) returns (r: Result<Value>)
      requires Valid()
      modifies this
      ensures Valid()
      ensures var s := old(StashStep(message, count, exclude));
              r == Reply(s.outcome, message, publishAsDevice) &&
              deviceMessageArray == if s.outcome == Thrown(Error(SuppliedError)) then old(deviceMessageArray) else Some(s.table)
      ensures messageBus == old(messageBus) && configuration == old(configuration) && batchCount == old(batchCount)
      ensures excluded == old(excluded) && publishAsDevice == old(publishAsDevice)
    {
      ghost var t0 := TableOf(deviceMessageArray);
      StashSupplied(t0, message, count, exclude, aliasing);
      if !Truthy(message) || !Present(count) {
        return Err(Error(SuppliedError));
      }
      if deviceMessageArray.None? {
        deviceMessageArray := Some(EmptyTable());
      }
      var ident := Identify(message);
      if ident.None? {
        return Ok(message);
      }
      var identifier := ident.value.id;
      var isExcluded := Excluded(exclude, identifier);
      if isExcluded.Err? {
        return Err(isExcluded.error);
      }
      if isExcluded.value {
        return Ok(message);
      }
      StashFiles(t0, message, count, exclude, aliasing);
      ResolveFresh(t0, message, aliasing);
      r := FileMessage(message, Resolve(deviceMessageArray.value, ident.value, aliasing), count.value);
    }

    /** The tail of `stashMessage` once the message has a slot: a fresh
        queue is created first, the message is pushed, and a queue that
        reached the count is returned as a frame and emptied. */
    method FileMessage(message: Value, slot: Slot, count: Value) returns (r: Result<Value>)
      requires deviceMessageArray.Some? && Batch.Valid(deviceMessageArray.value) && HasProperties(message)
      requires slot.Fresh? ==> slot.key !in deviceMessageArray.value.queues && slot.key !in ObjectPrototypeKeys
      modifies this
      ensures Valid()
      ensures var s := File(old(deviceMessageArray.value), message, slot, count);
              r == Reply(s.outcome, message, publishAsDevice) && deviceMessageArray == Some(s.table)
      ensures messageBus == old(messageBus) && configuration == old(configuration) && batchCount == old(batchCount)
      ensures excluded == old(excluded) && publishAsDevice == old(publishAsDevice)
    {
      FileKeepsValid(deviceMessageArray.value, message, slot, count);
      ghost var s := File(deviceMessageArray.value, message, slot, count);
      var pad := publishAsDevice;
      var t := deviceMessageArray.value;
      var key := slot.key;
      if slot.Fresh? {
        t := Table(t.queues[key := []], t.order + [key]);
        deviceMessageArray := Some(t);
      }
      if key !in t.queues {
        return Err(TypeError);
      }
      var queue := t.queues[key] + [message];
      if Reached(|queue|, count) {
        assert s == Step(Table(t.queues[key := []], t.order), Flushed(queue));
        deviceMessageArray := Some(Table(t.queues[key := []], t.order));
        return Ok(Frame(queue, pad));
      }
      assert s == Step(Table(t.queues[key := queue], t.order), Queued);
      deviceMessageArray := Some(Table(t.queues[key := queue], t.order));
      return Ok(Null);
    }

    /** `receive(message)`: stashes the message with the configured count and
        exclusions and publishes whatever truthy value comes back. */
    method Receive(message: Value) returns (c: Completion)
      requires Valid()
      modifies this, messageBus
      ensures messageBus == old(messageBus) && configuration == old(configuration) && batchCount == old(batchCount)
      ensures excluded == old(excluded) && publishAsDevice == old(publishAsDevice)
      ensures Valid()
      ensures var s := old(StashStep(message, batchCount, excluded));
              var r := Reply(s.outcome, message, publishAsDevice);
              deviceMessageArray == (if s.outcome == Thrown(Error(SuppliedError)) then old(deviceMessageArray) else Some(s.table)) &&
              c == (if r.Err? then Abrupt(r.error)
                    else if Truthy(r.value) && messageBus == null then Abrupt(TypeError)
                    else Normal) &&
              (messageBus != null ==>
                 messageBus.published == old(messageBus.published) + (if r.Ok? && Truthy(r.value) then [r.value] else []))
    {
      var r := StashMessage(message, batchCount, excluded);
      if r.Err? {
        return Abrupt(r.error);
      }
      if Truthy(r.value) {
        if messageBus == null {
          return Abrupt(TypeError);
        }
        messageBus.Publish(r.value);
      }
      return Normal;
    }

    /** `destroy()`: publishes one frame per non-empty queue, in the order
        `Object.keys` lists the devices, and empties each. Without a bus the
        first such publish throws, after the last message of that queue had
        its properties rewritten. */
    method Destroy() returns (c: Completion)
      requires Valid()
      modifies this, messageBus
      ensures messageBus == old(messageBus) && configuration == old(configuration) && batchCount == old(batchCount)
      ensures excluded == old(excluded) && publishAsDevice == old(publishAsDevice)
      ensures Valid()
      ensures old(deviceMessageArray).None? ==>
                c == Normal && deviceMessageArray == None &&
                (messageBus != null ==> messageBus.published == old(messageBus.published))
      ensures old(deviceMessageArray).Some? && messageBus != null ==>
                var t := old(deviceMessageArray).value;
                var keys := EnumerationOrder(t.order);
                c == Normal && deviceMessageArray == Some(Drained(t)) &&
                messageBus.published == old(messageBus.published) + DrainFrames(t, keys, |keys|, publishAsDevice)
      ensures old(deviceMessageArray).Some? && messageBus == null ==>
                var t := old(deviceMessageArray).value;
                match FirstPending(t, EnumerationOrder(t.order))
                case None => c == Normal && deviceMessageArray == old(deviceMessageArray)
                case Some(k) =>
                  c == Abrupt(TypeError) &&
                  deviceMessageArray == Some(Table(t.queues[k := MarkLast(t.queues[k], publishAsDevice)], t.order))
    {
      if deviceMessageArray.None? {
        return Normal;
      }
      ghost var t := deviceMessageArray.value;
      var keys := EnumerationOrder(deviceMessageArray.value.order);
      EnumerationCovers(t);
      c := DrainQueues(keys);
      if messageBus != null {
        DrainPrefixAll(t, keys);
        DrainedValid(t);
      } else if c.Abrupt? {
        MarkLastValid(t, FirstPending(t, keys).value, publishAsDevice);
      }
    }

    /** The `forEach` of `destroy` over `keys`: each non-empty queue is
        published as a frame and replaced by `[]`; without a bus the first
        publish throws, after the last message of its queue had its
        properties rewritten. */
    method DrainQueues(keys: seq<string>) returns (c: Completion)
      requires deviceMessageArray.Some? && Distinct(keys)
      modifies this, messageBus
      ensures messageBus == old(messageBus) && configuration == old(configuration) && batchCount == old(batchCount)
      ensures excluded == old(excluded) && publishAsDevice == old(publishAsDevice)
      ensures messageBus != null ==>
                var t := old(deviceMessageArray).value;
                c == Normal && deviceMessageArray == Some(DrainPrefix(t, keys, |keys|)) &&
                messageBus.published == old(messageBus.published) + DrainFrames(t, keys, |keys|, publishAsDevice)
      ensures messageBus == null ==>
                var t := old(deviceMessageArray).value;
                match FirstPending(t, keys)
                case None => c == Normal && deviceMessageArray == old(deviceMessageArray)
                case Some(k) =>
                  c == Abrupt(TypeError) &&
                  deviceMessageArray == Some(Table(t.queues[k := MarkLast(t.queues[k], publishAsDevice)], t.order))
    {
      ghost var t := deviceMessageArray.value;
      var i, table := PublishQueues(keys);
      if messageBus == null {
        IdleUpToAll(t, keys, i);
      }
      if i < |keys| {
        var id := keys[i];
        NoneBefore(t, keys, i);
        DrainPrefixIdle(t, keys, i);
        deviceMessageArray := Some(Table(table.queues[id := MarkLast(table.queues[id], publishAsDevice)], table.order));
        return Abrupt(TypeError);
      }
      deviceMessageArray := Some(table);
      if messageBus == null {
        DrainPrefixIdle(t, keys, i);
      }
      return Normal;
    }

    /** The loop of `destroy` up to the first publish that throws: `stop`
        is the number of keys visited in full, and `table` the queue table
        then. Only a missing bus stops it early, at a non-empty queue. */
    method PublishQueues(keys: seq<string>) returns (stop: nat, table: Table)
      requires deviceMessageArray.Some? && Distinct(keys)
      modifies messageBus
      ensures var t := deviceMessageArray.value;
              stop <= |keys| && table == DrainPrefix(t, keys, stop) &&
              (stop < |keys| ==> messageBus == null && QueueOf(t, keys[stop]) != [])
      ensures messageBus != null ==>
                messageBus.published == old(messageBus.published) + DrainFrames(deviceMessageArray.value, keys, stop, publishAsDevice)
      ensures messageBus == null ==> IdleUpTo(deviceMessageArray.value, keys, stop)
    {
      ghost var t := deviceMessageArray.value;
      var pad := publishAsDevice;
      var bus := messageBus;
      ghost var published := if bus != null then bus.published else [];
      table := deviceMessageArray.value;
      stop := 0;
      while stop < |keys|
        invariant stop <= |keys|
        invariant table == DrainPrefix(t, keys, stop)
        invariant bus != null ==> bus.published == published + DrainFrames(t, keys, stop, pad)
        invariant bus == null ==> IdleUpTo(t, keys, stop)
      {
        var id := keys[stop];
        var messageArray := QueueOf(table, id);
        assert id !in keys[..stop];
        DrainPrefixNext(t, keys, stop);
        if |messageArray| > 0 {
          if bus == null {
            return;
          }
          PublishNext(bus, t, keys, stop, messageArray, pad, published);
          table := Table(table.queues[id := []], table.order);
        } else {
          DrainFramesNext(t, keys, stop, pad);
        }
        stop := stop + 1;
      }
    }
  }

  /** Publishes the frame of the next non-empty queue `destroy` visits. */
  method PublishNext(bus: MessageBus, ghost t: Table, keys: seq<string>, i: nat, queue: seq<Value>,
                     pad: Option<Value>, ghost start: seq<Value>)
    requires i < |keys| && queue == QueueOf(t, keys[i]) && queue != []
    requires bus.published == start + DrainFrames(t, keys, i, pad)
    modifies bus
    ensures bus.published == start + DrainFrames(t, keys, i + 1, pad)
  {
    ghost var before := bus.published;
    bus.Publish(Frame(queue, pad));
    PublishStep(t, keys, i, pad, start, before, bus.published);
  }

  /** The queue of a key not visited yet is still the original one, and
      visiting it empties it if it held anything. */
  lemma DrainPrefixNext(t: Table, keys: seq<string>, i: nat)
    requires i < |keys| && keys[i] !in keys[..i]
    ensures QueueOf(DrainPrefix(t, keys, i), keys[i]) == QueueOf(t, keys[i])
    ensures var before := DrainPrefix(t, keys, i);
            DrainPrefix(t, keys, i + 1) ==
              if QueueOf(t, keys[i]) == [] then before else Table(before.queues[keys[i] := []], before.order)
  {
    DrainPrefixQueue(t, keys, i, keys[i]);
  }

  /** Publishing the frame of the next non-empty queue extends the bus by
      the frames of one key more. */
  lemma PublishStep(t: Table, keys: seq<string>, i: nat, pad: Option<Value>,
                    start: seq<Value>, before: seq<Value>, after: seq<Value>)
    requires i < |keys| && QueueOf(t, keys[i]) != []
    requires before == start + DrainFrames(t, keys, i, pad)
    requires after == before + [Frame(QueueOf(t, keys[i]), pad)]
    ensures after == start + DrainFrames(t, keys, i + 1, pad)
  {
    DrainFramesNext(t, keys, i, pad);
    Extend(start, DrainFrames(t, keys, i, pad), before, Frame(QueueOf(t, keys[i]), pad), after);
  }

  /** `Object.keys` of a well-formed table lists each of its keys once. */
  lemma EnumerationCovers(t: Table)
    requires Batch.Valid(t)
    ensures var keys := EnumerationOrder(t.order);
            Distinct(keys) && forall k :: k in keys <==> k in t.queues
  {
    EnumerationOrderLists(t.order);
  }

  lemma Extend(start: seq<Value>, frames: seq<Value>, before: seq<Value>, frame: Value, after: seq<Value>)
    requires before == start + frames && after == before + [frame]
    ensures after == start + (frames + [frame])
  {
  }

  /** Rewriting the last message's properties keeps a table well formed. */
  lemma MarkLastValid(t: Table, key: string, publishAs: Option<Value>)
    requires Batch.Valid(t) && key in t.queues && t.queues[key] != []
    ensures Batch.Valid(Table(t.queues[key := MarkLast(t.queues[key], publishAs)], t.order))
  {
    var q := MarkLast(t.queues[key], publishAs);
    var queues := t.queues[key := q];
    forall k, i | k in queues && 0 <= i < |queues[k]|
      ensures HasProperties(queues[k][i])
    {
      if k == key && i < |q| - 1 {
        assert q[i] == q[..|q| - 1][i];
      }
    }
  }

  /** A key whose queue is the first non-empty one among `keys` is the one
      `FirstPending` names. */
  lemma {:induction false} NoneBefore(t: Table, keys: seq<string>, i: nat)
    requires i < |keys| && QueueOf(t, keys[i]) != []
    requires forall j :: 0 <= j < i ==> QueueOf(t, keys[j]) == []
    ensures FirstPending(t, keys) == Some(keys[i])
  {
    if i > 0 {
      NoneBefore(t, keys[1..], i - 1);
    }
  }
}
