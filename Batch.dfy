/** The batcher's logic on values: the per-device queue table, what
    `stashMessage` does to it and returns, the frame it builds, the
    publish-as rewrite of the frame's properties, the validation `create`
    performs, and the frames `destroy` drains. The `Batcher` class runs the
    same steps on its own fields and is proved to agree with these
    functions. */
module Batch {
  import opened Values
  import opened Json
  import Utf8
  import opened KeyOrder

  // ---------------------------------------------------------------------
  // The queue table

  /** `deviceMessageArray`: a queue of messages per key, and the order in
      which the keys were created. */
  datatype Table = Table(queues: map<string, seq<Value>>, order: seq<string>)

  /** A message whose `properties` is an object. */
  predicate HasProperties(m: Value) {
    var p := Get(m, "properties");
    p.Some? && p.value.Obj?
  }

  /** The own properties of `m.properties`. */
  function PropertiesOf(m: Value): seq<Prop> {
    var p := Get(m, "properties");
    if p.Some? && p.value.Obj? then p.value.props else []
  }

  /** Every key is listed once in creation order, none of them is a name that
      `{}` inherits, and every queued message has a properties object. */
  predicate Valid(t: Table) {
    Distinct(t.order)
    && (forall k :: k in t.queues ==> k in t.order)
    && (forall i :: 0 <= i < |t.order| ==> t.order[i] in t.queues)
    && (forall k :: k in t.queues ==> k !in ObjectPrototypeKeys)
    && (forall k, i :: k in t.queues && 0 <= i < |t.queues[k]| ==> HasProperties(t.queues[k][i]))
  }

  /** `{}`, as `create` installs it. */
  function EmptyTable(): (t: Table)
    ensures Valid(t) && t.order == []
  {
    Table(map[], [])
  }

  /** The queue under `key`, empty when there is none. */
  function QueueOf(t: Table, key: string): seq<Value> {
    if key in t.queues then t.queues[key] else []
  }

  /** `key in deviceMessageArray`, which also holds for inherited names. */
  predicate Has(t: Table, key: string) {
    key in t.queues || key in ObjectPrototypeKeys
  }

  // ---------------------------------------------------------------------
  // applyPublishAsProperties

  /** What a `publishAsDevice` section asks for. */
  datatype Override = NoOverride | MacOverride(mac: Value) | DeviceOverride(deviceId: Value, deviceKey: Value)

  function OverrideOf(publishAs: Option<Value>): Override {
    if publishAs.None? || !Truthy(publishAs.value) then NoOverride
    else
      var pad := publishAs.value;
      var mac, key, id := Get(pad, "macAddress"), Get(pad, "deviceKey"), Get(pad, "deviceId");
      if Present(mac) then MacOverride(mac.value)
      else if Present(key) && Present(id) then DeviceOverride(id.value, key.value)
      else NoOverride
  }

  /** The properties of a frame: those of the last message with `batched`
      set and the publish-as identity written over the device's own. */
  function ApplyPublishAs(props: seq<Prop>, publishAs: Option<Value>): seq<Prop>
  {
    var marked := Assign(props, "batched", Bool(true));
    match OverrideOf(publishAs)
    case NoOverride => marked
    case MacOverride(mac) => Assign(marked, "macAddress", mac)
    case DeviceOverride(id, key) => Assign(Assign(marked, "deviceId", id), "deviceKey", key)
  }

  /** Property `k` of a frame's properties, read off the override alone. */
  function PublishedProperty(props: seq<Prop>, publishAs: Option<Value>, k: string): Option<Value> {
    match OverrideOf(publishAs)
    case MacOverride(mac) =>
      if k == "macAddress" then Some(mac)
      else if k == "batched" then Some(Bool(true))
      else Lookup(props, k)
    case DeviceOverride(id, key) =>
      if k == "deviceKey" then Some(key)
      else if k == "deviceId" then Some(id)
      else if k == "batched" then Some(Bool(true))
      else Lookup(props, k)
    case NoOverride =>
      if k == "batched" then Some(Bool(true)) else Lookup(props, k)
  }

  /** Every property of the rewritten set is the override's value, `true`
      for `batched`, or the last message's own value. */
  lemma ApplyPublishAsReads(props: seq<Prop>, publishAs: Option<Value>, k: string)
    ensures Lookup(ApplyPublishAs(props, publishAs), k) == PublishedProperty(props, publishAs, k)
  {
    var marked := Assign(props, "batched", Bool(true));
    LookupAssign(props, "batched", Bool(true), k);
    match OverrideOf(publishAs)
    case NoOverride =>
    case MacOverride(mac) =>
      LookupAssign(marked, "macAddress", mac, k);
    case DeviceOverride(id, key) =>
      var withId := Assign(marked, "deviceId", id);
      LookupAssign(marked, "deviceId", id, k);
      LookupAssign(withId, "deviceKey", key, k);
  }

  /** Rewriting twice is rewriting once. */
  lemma {:induction false} ApplyPublishAsIdempotent(props: seq<Prop>, publishAs: Option<Value>)
    ensures ApplyPublishAs(ApplyPublishAs(props, publishAs), publishAs) == ApplyPublishAs(props, publishAs)
  {
    var once := ApplyPublishAs(props, publishAs);
    ApplyPublishAsReads(props, publishAs, "batched");
    AssignSame(once, "batched", Bool(true));
    match OverrideOf(publishAs)
    case NoOverride =>
    case MacOverride(mac) =>
      ApplyPublishAsReads(props, publishAs, "macAddress");
      AssignSame(once, "macAddress", mac);
    case DeviceOverride(id, key) =>
      ApplyPublishAsReads(props, publishAs, "deviceId");
      ApplyPublishAsReads(props, publishAs, "deviceKey");
      AssignSame(once, "deviceId", id);
      AssignSame(once, "deviceKey", key);
  }

  // ---------------------------------------------------------------------
  // stashMessage

  const SuppliedError := "message & batchCount must be supplied"

  /** `macAddress` and `deviceId` as read from a message, and the identifier
      chosen from them. */
  datatype Identity = Identity(mac: Option<Value>, deviceId: Option<Value>, id: Value)

  /** The identity of a message whose properties carry a truthy `macAddress`
      or `deviceId`; the identifier is the MAC address when there is one. */
  function Identify(message: Value): (r: Option<Identity>)
    ensures r.Some? <==>
              HasProperties(message) &&
              (Present(Lookup(PropertiesOf(message), "macAddress")) || Present(Lookup(PropertiesOf(message), "deviceId")))
    ensures r.Some? ==> Truthy(r.value.id)
    ensures r.Some? && Present(r.value.mac) ==> Some(r.value.id) == r.value.mac
    ensures r.Some? && !Present(r.value.mac) ==> Some(r.value.id) == r.value.deviceId
  {
    match Get(message, "properties")
    case Some(Obj(props)) =>
      var mac, dev := Lookup(props, "macAddress"), Lookup(props, "deviceId");
      if Present(mac) then Some(Identity(mac, dev, mac.value))
      else if Present(dev) then Some(Identity(mac, dev, dev.value))
      else None
    case _ => None
  }

  /** `excluded && excluded.indexOf(id) >= 0`: an array compares its
      elements strictly, a string searches for the identifier's text, a
      typed array for its number; anything else truthy has no `indexOf`. */
  function Excluded(excluded: Option<Value>, id: Value): (r: Result<bool>)
    ensures excluded.None? ==> r == Ok(false)
    ensures excluded.Some? && excluded.value.Arr? ==>
              r == Ok(exists i :: 0 <= i < |excluded.value.items| && StrictEquals(excluded.value.items[i], id))
  {
    if excluded.None? || !Truthy(excluded.value) then Ok(false)
    else match excluded.value
      case Arr(items) => Ok(exists i :: 0 <= i < |items| && StrictEquals(items[i], id))
      case Str(s) => Ok(Contains(s, ToKey(id)))
      case Bytes(data) => Ok(id.Num? && id.n in data)
      case _ => Err(TypeError)
  }

  /** Which way batch.js:84-89 resolves a message whose `deviceId` already
      has a queue: as written it takes the `macAddress`, the evident intent
      is the `deviceId`. */
  datatype Aliasing = AsWritten | Intended

  /** Where the message goes: a key the table already answers to, or a new
      entry. */
  datatype Slot = Existing(key: string) | Fresh(key: string)

  function Resolve(t: Table, ident: Identity, aliasing: Aliasing): Slot {
    var macKey, devKey := KeyOf(ident.mac), KeyOf(ident.deviceId);
    if Has(t, macKey) then Existing(macKey)
    else if Has(t, devKey) then Existing(if aliasing == AsWritten then macKey else devKey)
    else Fresh(ToKey(ident.id))
  }

  /** The key a message is filed under, if it has an identity. */
  function Target(t: Table, message: Value, aliasing: Aliasing): Option<string> {
    match Identify(message)
    case None => None
    case Some(ident) => Some(Resolve(t, ident, aliasing).key)
  }

  /** `queue.length >= batchCount`, the count converted to a number; NaN
      compares false. */
  predicate Reached(length: nat, batchCount: Value) {
    match ToNumber(batchCount)
    case None => false
    case Some(n) => length >= n
  }

  /** `{ properties, content }` for a queue: the publish-as properties of its
      last message, and the UTF-8 bytes of the queue's JSON text. */
  function Frame(queue: seq<Value>, publishAs: Option<Value>): Value
    requires queue != []
  {
    var last := queue[|queue| - 1];
    Obj([Prop("properties", Obj(ApplyPublishAs(PropertiesOf(last), publishAs))),
         Prop("content", Bytes(Utf8.Encode(Stringify(Arr(queue)))))])
  }

  /** How `stashMessage` ends: it returns the message itself, `null`, or the
      frame of the messages in `batch`, or it throws. */
  datatype Outcome = Passed | Queued | Flushed(batch: seq<Value>) | Thrown(error: JsError)

  /** The value `stashMessage` returns for an outcome that is not a throw. */
  function Returned(outcome: Outcome, message: Value, publishAs: Option<Value>): Value
    requires !outcome.Thrown?
    requires outcome.Flushed? ==> outcome.batch != []
  {
    match outcome
    case Passed => message
    case Queued => Null
    case Flushed(batch) => Frame(batch, publishAs)
  }

  datatype Step = Step(table: Table, outcome: Outcome)

  /** `stashMessage(message, batchCount, excluded)` on the table `t`. */
  function Stash(t: Table, message: Value, batchCount: Option<Value>, excluded: Option<Value>,
                 aliasing: Aliasing): (r: Step)
    ensures r.outcome.Flushed? ==> r.outcome.batch != []
  {
    if !Truthy(message) || !Present(batchCount) then Step(t, Thrown(Error(SuppliedError)))
    else match Identify(message)
      case None => Step(t, Passed)
      case Some(ident) =>
        match Excluded(excluded, ident.id)
        case Err(e) => Step(t, Thrown(e))
        case Ok(true) => Step(t, Passed)
        case Ok(false) => File(t, message, Resolve(t, ident, aliasing), batchCount.value)
  }

  /** The message pushed onto the queue of `slot`, a fresh one created
      first; the queue is framed and emptied once it reaches the count. */
  function File(t: Table, message: Value, slot: Slot, batchCount: Value): (r: Step)
    ensures r.outcome.Flushed? ==> r.outcome.batch != [] && r.outcome.batch[|r.outcome.batch| - 1] == message
  {
    var key := slot.key;
    var order := if slot.Fresh? then t.order + [key] else t.order;
    var queues := if slot.Fresh? then t.queues[key := []] else t.queues;
    if key !in queues then Step(t, Thrown(TypeError))
    else
      var queue := queues[key] + [message];
      if Reached(|queue|, batchCount) then
        Step(Table(queues[key := []], order), Flushed(queue))
      else
        Step(Table(queues[key := queue], order), Queued)
  }

  /** The one `Error` is thrown exactly when the message or the count is
      missing or falsy. */
  lemma StashSupplied(t: Table, message: Value, batchCount: Option<Value>, excluded: Option<Value>,
                      aliasing: Aliasing)
    ensures Stash(t, message, batchCount, excluded, aliasing).outcome == Thrown(Error(SuppliedError))
            <==> !Truthy(message) || !Present(batchCount)
  {
  }

  /** A message is handed back untouched exactly when it carries no
      identity or its identifier is excluded; the table is then unchanged. */
  lemma StashPasses(t: Table, message: Value, batchCount: Option<Value>, excluded: Option<Value>,
                    aliasing: Aliasing)
    requires Truthy(message) && Present(batchCount)
    ensures var r := Stash(t, message, batchCount, excluded, aliasing);
            r.outcome.Passed? <==>
              Identify(message).None? || Excluded(excluded, Identify(message).value.id) == Ok(true)
    ensures var r := Stash(t, message, batchCount, excluded, aliasing);
            r.outcome.Passed? || r.outcome.Thrown? ==> r.table == t
  {
    match Identify(message)
    case None =>
    case Some(ident) =>
      match Excluded(excluded, ident.id)
      case Err(_) =>
      case Ok(b) =>
        if !b {
          var f := File(t, message, Resolve(t, ident, aliasing), batchCount.value);
          assert !f.outcome.Passed? && (f.outcome.Thrown? ==> f.table == t);
        }
  }

  /** An identified message that is not excluded is filed where `Resolve`
      puts it. */
  lemma StashFiles(t: Table, message: Value, batchCount: Option<Value>, excluded: Option<Value>, aliasing: Aliasing)
    requires Truthy(message) && Present(batchCount) && Identify(message).Some?
    requires Excluded(excluded, Identify(message).value.id) == Ok(false)
    ensures Stash(t, message, batchCount, excluded, aliasing) == File(t, message, Resolve(t, Identify(message).value, aliasing), batchCount.value)
  {
  }

  /** A fresh slot is a key the table does not yet hold. */
  lemma ResolveFresh(t: Table, message: Value, aliasing: Aliasing)
    requires Identify(message).Some?
    ensures var slot := Resolve(t, Identify(message).value, aliasing);
            slot.Fresh? ==> slot.key !in t.queues && slot.key !in ObjectPrototypeKeys
  {
    var ident := Identify(message).value;
    if Present(ident.mac) {
      assert ToKey(ident.id) == KeyOf(ident.mac);
    } else {
      assert ToKey(ident.id) == KeyOf(ident.deviceId);
    }
  }

  /** Filing appends the message to the slot's queue; reaching the count
      turns that queue into a frame and empties it. */
  lemma FileQueues(t: Table, message: Value, slot: Slot, batchCount: Value)
    requires slot.Fresh? ==> slot.key !in t.queues
    ensures var r := File(t, message, slot, batchCount);
            var queue := QueueOf(t, slot.key) + [message];
            r.outcome.Queued? ==>
              r.table.queues == t.queues[slot.key := queue] && !Reached(|queue|, batchCount)
    ensures var r := File(t, message, slot, batchCount);
            var queue := QueueOf(t, slot.key) + [message];
            r.outcome.Flushed? ==>
              r.table.queues == t.queues[slot.key := []] && Reached(|queue|, batchCount) &&
              r.outcome.batch == queue
    ensures var r := File(t, message, slot, batchCount);
            r.outcome.Thrown? <==> slot.Existing? && slot.key !in t.queues
  {
    if slot.Fresh? {
      assert t.queues[slot.key := []][slot.key := []] == t.queues[slot.key := []];
      var one := t.queues[slot.key := []][slot.key := [message]];
      assert one == t.queues[slot.key := [message]];
    }
  }

  /** Below the threshold the message is appended to its device's queue and
      nothing else changes. */
  lemma StashQueues(t: Table, message: Value, batchCount: Option<Value>, excluded: Option<Value>,
                    aliasing: Aliasing)
    requires Stash(t, message, batchCount, excluded, aliasing).outcome.Queued?
    ensures Target(t, message, aliasing).Some? && batchCount.Some?
    ensures var r := Stash(t, message, batchCount, excluded, aliasing);
            var key := Target(t, message, aliasing).value;
            r.table.queues == t.queues[key := QueueOf(t, key) + [message]] &&
            !Reached(|QueueOf(t, key)| + 1, batchCount.value)
  {
    var ident := Identify(message).value;
    ResolveFresh(t, message, aliasing);
    FileQueues(t, message, Resolve(t, ident, aliasing), batchCount.value);
  }

  /** At the threshold the queue with the message appended becomes one frame,
      and the queue is emptied. */
  lemma StashFlushes(t: Table, message: Value, batchCount: Option<Value>, excluded: Option<Value>,
                     aliasing: Aliasing)
    requires Stash(t, message, batchCount, excluded, aliasing).outcome.Flushed?
    ensures Target(t, message, aliasing).Some? && batchCount.Some?
    ensures var r := Stash(t, message, batchCount, excluded, aliasing);
            var key := Target(t, message, aliasing).value;
            r.table.queues == t.queues[key := []] &&
            r.outcome.batch == QueueOf(t, key) + [message] &&
            Reached(|QueueOf(t, key)| + 1, batchCount.value)
  {
    var ident := Identify(message).value;
    ResolveFresh(t, message, aliasing);
    FileQueues(t, message, Resolve(t, ident, aliasing), batchCount.value);
  }

  lemma AppendDistinct(order: seq<string>, key: string)
    requires Distinct(order) && key !in order
    ensures Distinct(order + [key])
  {
    var s := order + [key];
    assert forall i :: 0 <= i < |order| ==> s[i] == order[i];
  }

  /** Every queued message keeps a properties object once `message` has one. */
  lemma QueuedHaveProperties(queues: map<string, seq<Value>>, key: string, message: Value)
    requires key in queues && HasProperties(message)
    requires forall k, i :: k in queues && 0 <= i < |queues[k]| ==> HasProperties(queues[k][i])
    ensures var q := queues[key := queues[key] + [message]];
            forall k, i :: k in q && 0 <= i < |q[k]| ==> HasProperties(q[k][i])
  {
    var queue := queues[key] + [message];
    assert forall i :: 0 <= i < |queue| - 1 ==> queue[i] == queues[key][i];
  }

  /** Filing keeps the table well formed: a fresh key is appended to the
      creation order once, and only messages with properties are queued. */
  lemma {:induction false} FileKeepsValid(t: Table, message: Value, slot: Slot, batchCount: Value)
    requires Valid(t) && HasProperties(message)
    requires slot.Fresh? ==> slot.key !in t.queues && slot.key !in ObjectPrototypeKeys
    ensures var r := File(t, message, slot, batchCount);
            Valid(r.table) && (r.table.order == t.order || (slot.Fresh? && r.table.order == t.order + [slot.key]))
  {
    var r := File(t, message, slot, batchCount);
    if !r.outcome.Thrown? {
      var key := slot.key;
      var queues := if slot.Fresh? then t.queues[key := []] else t.queues;
      QueuedHaveProperties(queues, key, message);
      if slot.Fresh? {
        AppendDistinct(t.order, key);
      }
    }
  }

  /** `stashMessage` keeps the table well formed. */
  lemma StashKeepsValid(t: Table, message: Value, batchCount: Option<Value>, excluded: Option<Value>,
                        aliasing: Aliasing)
    requires Valid(t)
    ensures Valid(Stash(t, message, batchCount, excluded, aliasing).table)
  {
    if Truthy(message) && Present(batchCount) && Identify(message).Some? {
      var ident := Identify(message).value;
      ResolveFresh(t, message, aliasing);
      FileKeepsValid(t, message, Resolve(t, ident, aliasing), batchCount.value);
    }
  }

  // ---------------------------------------------------------------------
  // create

  const CreateModuleError :=
    "The `messageBus` and/or `configuration` parameters passed to `module.create` were undefined."
  const BatchCountError :=
    "This module requires `batchCount` argument to be present in the module's configuration."
  const PublishAsError :=
    "The `publish as device` configuration section must include either a `macAddress` value or, `deviceId` and `devicekey` values."

  /** A `publishAsDevice` section names a MAC address, or a device id and key. */
  predicate CompletePublishAs(pad: Value) {
    Present(Get(pad, "macAddress")) || (Present(Get(pad, "deviceId")) && Present(Get(pad, "deviceKey")))
  }

  /** The message `create` logs before it returns false, or `None` when it
      returns true. */
  function CreateFailure(hasBus: bool, configuration: Option<Value>): (r: Option<string>)
    ensures r.None? <==>
              hasBus && Present(configuration) && Present(Get(configuration.value, "batchCount")) &&
              (!Present(Get(configuration.value, "publishAsDevice")) ||
               CompletePublishAs(Get(configuration.value, "publishAsDevice").value))
  {
    if !hasBus || !Present(configuration) then Some(CreateModuleError)
    else
      var config := configuration.value;
      if !Present(Get(config, "batchCount")) then Some(BatchCountError)
      else
        var pad := Get(config, "publishAsDevice");
        if Present(pad) && !CompletePublishAs(pad.value) then Some(PublishAsError)
        else None
  }

  // ---------------------------------------------------------------------
  // destroy

  /** The frame `destroy` publishes for the queue under `key`, if any. */
  function Pending(t: Table, key: string, publishAs: Option<Value>): seq<Value> {
    var queue := QueueOf(t, key);
    if queue == [] then [] else [Frame(queue, publishAs)]
  }

  /** The frames `destroy` publishes once it has visited the first `n` of
      `keys`: one per non-empty queue, in visiting order. */
  function DrainFrames(t: Table, keys: seq<string>, n: nat, publishAs: Option<Value>): (frames: seq<Value>)
    requires n <= |keys|
    ensures |frames| <= n
  {
    if n == 0 then [] else DrainFrames(t, keys, n - 1, publishAs) + Pending(t, keys[n - 1], publishAs)
  }

  /** Visiting one key more adds that key's frame, if its queue is not empty. */
  lemma DrainFramesNext(t: Table, keys: seq<string>, i: nat, publishAs: Option<Value>)
    requires i < |keys|
    ensures QueueOf(t, keys[i]) == [] ==> DrainFrames(t, keys, i + 1, publishAs) == DrainFrames(t, keys, i, publishAs)
    ensures QueueOf(t, keys[i]) != [] ==>
              DrainFrames(t, keys, i + 1, publishAs) == DrainFrames(t, keys, i, publishAs) + [Frame(QueueOf(t, keys[i]), publishAs)]
  {
  }

  /** The table after `destroy` has visited the first `n` of `keys`: every
      non-empty queue among them replaced by `[]`. */
  function DrainPrefix(t: Table, keys: seq<string>, n: nat): (r: Table)
    requires n <= |keys|
    ensures r.order == t.order
  {
    if n == 0 then t
    else
      var before := DrainPrefix(t, keys, n - 1);
      if QueueOf(before, keys[n - 1]) == [] then before
      else Table(before.queues[keys[n - 1] := []], before.order)
  }

  /** The table after `destroy`: the same keys, every queue empty. */
  function Drained(t: Table): (r: Table)
    ensures r.order == t.order && r.queues.Keys == t.queues.Keys
    ensures forall k :: k in r.queues ==> r.queues[k] == []
  {
    Table(map k | k in t.queues :: [], t.order)
  }

  /** After the first `n` keys, a visited key's queue is empty, any other
      key still holds its queue, and no key was added or removed. */
  lemma {:induction false} DrainPrefixQueue(t: Table, keys: seq<string>, n: nat, k: string)
    requires n <= |keys|
    ensures var r := DrainPrefix(t, keys, n);
            (k in r.queues <==> k in t.queues) &&
            QueueOf(r, k) == if k in keys[..n] then [] else QueueOf(t, k)
  {
    if n > 0 {
      DrainPrefixQueue(t, keys, n - 1, k);
      assert keys[..n] == keys[..n - 1] + [keys[n - 1]];
    }
  }

  /** Visiting every key of the table drains it. */
  lemma DrainPrefixAll(t: Table, keys: seq<string>)
    requires forall k :: k in t.queues ==> k in keys
    ensures DrainPrefix(t, keys, |keys|) == Drained(t)
  {
    var r := DrainPrefix(t, keys, |keys|);
    forall k
      ensures (k in r.queues <==> k in t.queues) && (k in r.queues ==> r.queues[k] == [])
    {
      DrainPrefixQueue(t, keys, |keys|, k);
      assert keys[..|keys|] == keys;
    }
    assert r.queues == Drained(t).queues;
  }

  /** The queues of the first `n` keys are all empty. */
  predicate IdleUpTo(t: Table, keys: seq<string>, n: nat)
    requires n <= |keys|
  {
    n == 0 || (IdleUpTo(t, keys, n - 1) && QueueOf(t, keys[n - 1]) == [])
  }

  lemma {:induction false} IdleUpToAll(t: Table, keys: seq<string>, n: nat)
    requires n <= |keys| && IdleUpTo(t, keys, n)
    ensures forall j :: 0 <= j < n ==> QueueOf(t, keys[j]) == []
  {
    if n > 0 {
      IdleUpToAll(t, keys, n - 1);
    }
  }

  /** Visiting keys whose queues are all empty changes nothing. */
  lemma {:induction false} DrainPrefixIdle(t: Table, keys: seq<string>, n: nat)
    requires n <= |keys|
    requires forall j :: 0 <= j < n ==> QueueOf(t, keys[j]) == []
    ensures DrainPrefix(t, keys, n) == t
  {
    if n > 0 {
      DrainPrefixIdle(t, keys, n - 1);
    }
  }

  /** A drained table stays well formed and keeps its creation order. */
  lemma DrainedValid(t: Table)
    requires Valid(t)
    ensures Valid(Drained(t))
  {
  }

  /** The first key in `keys` whose queue is not empty. */
  function FirstPending(t: Table, keys: seq<string>): (r: Option<string>)
    ensures r.Some? ==> r.value in keys && QueueOf(t, r.value) != []
    ensures r.Some? ==> exists i :: 0 <= i < |keys| && keys[i] == r.value &&
                          forall j :: 0 <= j < i ==> QueueOf(t, keys[j]) == []
    ensures r.None? <==> forall i :: 0 <= i < |keys| ==> QueueOf(t, keys[i]) == []
  {
    if keys == [] then None
    else if QueueOf(t, keys[0]) != [] then Some(keys[0])
    else
      var r := FirstPending(t, keys[1..]);
      assert r.Some? ==> exists i :: 0 <= i < |keys| && keys[i] == r.value &&
                           forall j :: 0 <= j < i ==> QueueOf(t, keys[j]) == [] by {
        if r.Some? {
          var i :| 0 <= i < |keys| - 1 && keys[1..][i] == r.value &&
                   forall j :: 0 <= j < i ==> QueueOf(t, keys[1..][j]) == [];
          assert keys[i + 1] == r.value;
          forall j | 0 <= j < i + 1 ensures QueueOf(t, keys[j]) == [] {
            if j > 0 { assert keys[j] == keys[1..][j - 1]; }
          }
        }
      }
      r
  }

  /** `message` with its properties object replaced. */
  function WithProperties(message: Value, properties: seq<Prop>): (r: Value)
    requires message.Obj?
    ensures HasProperties(r) && PropertiesOf(r) == properties
  {
    LookupAssign(message.props, "properties", Obj(properties), "properties");
    Obj(Assign(message.props, "properties", Obj(properties)))
  }

  /** The queue after `applyPublishAsProperties` rewrote the properties of
      its last message in place; a message without a properties object
      makes it throw before it changes anything. */
  function MarkLast(queue: seq<Value>, publishAs: Option<Value>): (r: seq<Value>)
    requires queue != []
    ensures |r| == |queue| && r[..|r| - 1] == queue[..|queue| - 1]
    ensures HasProperties(queue[|queue| - 1]) ==>
              HasProperties(r[|r| - 1]) &&
              PropertiesOf(r[|r| - 1]) == ApplyPublishAs(PropertiesOf(queue[|queue| - 1]), publishAs)
    ensures !HasProperties(queue[|queue| - 1]) ==> r == queue
  {
    var last := queue[|queue| - 1];
    if HasProperties(last) then
      queue[..|queue| - 1] + [WithProperties(last, ApplyPublishAs(PropertiesOf(last), publishAs))]
    else queue
  }
}
