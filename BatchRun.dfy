/** `stashMessage` applied to a stream of messages: the batches a single
    device's messages are cut into. */
module BatchRun {
  import opened Values
  import opened Batch

  /** The table after a run of calls, and what each call ended with. */
  datatype Trace = Trace(table: Table, outcomes: seq<Outcome>)

  /** `stashMessage` called on each message in turn; a call that throws
      leaves the table as it was and the next call goes on. */
  function Run(t: Table, messages: seq<Value>, batchCount: Option<Value>, excluded: Option<Value>,
               aliasing: Aliasing): (r: Trace)
    ensures |r.outcomes| == |messages|
    decreases |messages|
  {
    if messages == [] then Trace(t, [])
    else
      var first := Stash(t, messages[0], batchCount, excluded, aliasing);
      var rest := Run(first.table, messages[1..], batchCount, excluded, aliasing);
      Trace(rest.table, [first.outcome] + rest.outcomes)
  }

  /** The `macAddress` a message carries, as a property key. */
  function MacKey(m: Value): string {
    KeyOf(Lookup(PropertiesOf(m), "macAddress"))
  }

  /** The `deviceId` a message carries, as a property key. */
  function DeviceKey(m: Value): string {
    KeyOf(Lookup(PropertiesOf(m), "deviceId"))
  }

  /** A message of the device whose MAC address is the key `key`, which is
      not excluded from batching. */
  predicate ByMac(m: Value, key: string, excluded: Option<Value>) {
    HasProperties(m)
    && Present(Lookup(PropertiesOf(m), "macAddress"))
    && MacKey(m) == key
    && Excluded(excluded, Lookup(PropertiesOf(m), "macAddress").value) == Ok(false)
  }

  /** A message without a `macAddress` of the device whose `deviceId` is the
      key `key`, which is not excluded from batching. */
  predicate ById(m: Value, key: string, excluded: Option<Value>) {
    HasProperties(m)
    && Lookup(PropertiesOf(m), "macAddress").None?
    && Present(Lookup(PropertiesOf(m), "deviceId"))
    && DeviceKey(m) == key
    && Excluded(excluded, Lookup(PropertiesOf(m), "deviceId").value) == Ok(false)
  }

  /** The messages one device's queue collects: those named by its MAC
      address, and, once the `deviceId` branch files under the `deviceId`,
      those named by a `deviceId` alone. */
  predicate OfDevice(m: Value, key: string, excluded: Option<Value>, aliasing: Aliasing) {
    ByMac(m, key, excluded) || (aliasing == Intended && ById(m, key, excluded))
  }

  /** The device's queue, or, for its first message, a fresh key nothing else
      answers to; and no queue under the key `undefined`, which a message
      without a `macAddress` would otherwise be filed under. */
  predicate Routable(t: Table, m: Value, key: string) {
    "undefined" !in t.queues && key != "undefined"
    && (key in t.queues || (key !in ObjectPrototypeKeys && !Has(t, DeviceKey(m))))
  }

  /** A device's message is filed under its key. */
  lemma StashOfDevice(t: Table, m: Value, key: string, batchCount: Option<Value>, excluded: Option<Value>,
                      aliasing: Aliasing)
    requires OfDevice(m, key, excluded, aliasing) && Present(batchCount) && Routable(t, m, key)
    ensures Stash(t, m, batchCount, excluded, aliasing) ==
            File(t, m, if key in t.queues then Existing(key) else Fresh(key), batchCount.value)
  {
    var ident := Identify(m).value;
    var slot := if key in t.queues then Existing(key) else Fresh(key);
    if ByMac(m, key, excluded) {
      ResolveByMac(t, m, key, excluded, aliasing);
    } else {
      ResolveById(t, m, key, excluded);
    }
    StashFiles(t, m, batchCount, excluded, aliasing);
  }

  lemma ResolveByMac(t: Table, m: Value, key: string, excluded: Option<Value>, aliasing: Aliasing)
    requires ByMac(m, key, excluded) && Routable(t, m, key)
    ensures Identify(m).Some? && Excluded(excluded, Identify(m).value.id) == Ok(false)
    ensures Resolve(t, Identify(m).value, aliasing) == if key in t.queues then Existing(key) else Fresh(key)
  {
    var ident := Identify(m).value;
    assert ident.id == Lookup(PropertiesOf(m), "macAddress").value;
    assert KeyOf(ident.mac) == key && KeyOf(ident.deviceId) == DeviceKey(m);
  }

  lemma ResolveById(t: Table, m: Value, key: string, excluded: Option<Value>)
    requires ById(m, key, excluded) && Routable(t, m, key)
    ensures Identify(m).Some? && Excluded(excluded, Identify(m).value.id) == Ok(false)
    ensures Resolve(t, Identify(m).value, Intended) == if key in t.queues then Existing(key) else Fresh(key)
  {
    var ident := Identify(m).value;
    assert ident.id == Lookup(PropertiesOf(m), "deviceId").value;
    assert KeyOf(ident.mac) == "undefined" && KeyOf(ident.deviceId) == key;
    UndefinedNotInherited();
    assert !Has(t, "undefined");
    assert ToKey(ident.id) == key;
  }

  // ---------------------------------------------------------------------
  // Remainders

  /** Adding the divisor leaves the remainder unchanged. */
  lemma ModShift(x: nat, n: nat)
    requires n >= 1
    ensures (x + n) % n == x % n
  {
    MulSucc(x / n, n);
    Euclid(x + n, n, x / n + 1, x % n);
  }

  /** A number below the divisor is its own remainder. */
  lemma ModSmall(x: nat, n: nat)
    requires x < n
    ensures x % n == x
  {
    Euclid(x, n, 0, x);
  }

  lemma MulSucc(a: int, n: int)
    ensures (a + 1) * n == a * n + n
  {
  }

  lemma Euclid(a: nat, n: nat, q: int, r: int)
    requires n >= 1 && a == q * n + r && 0 <= r < n
    ensures a % n == r && a / n == q
  {
    var q2, r2 := a / n, a % n;
    var d := q - q2;
    assert d * n == r2 - r by { MulSub(q, q2, n); }
    if d > 0 { MulAtLeast(d, n); }
    else if d < 0 { MulAtLeast(-d, n); }
  }

  lemma MulSub(a: int, b: int, n: int)
    ensures (a - b) * n == a * n - b * n
  {
  }

  lemma MulAtLeast(d: int, n: int)
    requires d >= 1 && n >= 1
    ensures d * n >= n
  {
  }

  // ---------------------------------------------------------------------
  // A device's stream

  /** What the call for the i-th message after `before` queued ones returns,
      all of them listed in `all`: a frame of the last `n` messages when its
      position is a multiple of `n`, and `null` otherwise. */
  function Expected(all: seq<Value>, before: nat, i: nat, n: nat): Outcome
    requires 1 <= n && before + i + 1 <= |all|
  {
    var position := before + i + 1;
    if position % n == 0 && position >= n then Flushed(all[position - n..position])
    else Queued
  }

  /** The messages of `all` left over after its last full frame. */
  function Leftover(all: seq<Value>, n: nat): (r: seq<Value>)
    requires n >= 1
    ensures |r| < n
  {
    all[|all| - |all| % n..]
  }

  /** A device that already queued `q0` and then sends `messages` gets one
      frame each time its queue reaches `n`, holding exactly the `n` messages
      since the previous frame, in arrival order, and `null` for every other
      message; what is left queued is the tail that has not filled a frame.
      No other queue changes. */
  lemma {:induction false} Periodic(t: Table, key: string, messages: seq<Value>, n: nat, excluded: Option<Value>,
                                    aliasing: Aliasing)
    requires n >= 1 && |QueueOf(t, key)| < n
    requires forall i :: 0 <= i < |messages| ==> OfDevice(messages[i], key, excluded, aliasing)
    requires messages != [] ==> Routable(t, messages[0], key)
    ensures var r := Run(t, messages, Some(Num(n)), excluded, aliasing);
            var all := QueueOf(t, key) + messages;
            (forall i :: 0 <= i < |messages| ==>
               r.outcomes[i] == Expected(all, |QueueOf(t, key)|, i, n)) &&
            (messages != [] ==> r.table.queues == t.queues[key := Leftover(all, n)])
    decreases |messages|
  {
    if messages != [] {
      var m, rest := messages[0], messages[1..];
      var q0 := QueueOf(t, key);
      var count := Some(Num(n));
      var first := Stash(t, m, count, excluded, aliasing);
      DeviceStep(t, m, key, n, excluded, aliasing);
      var q1 := QueueOf(first.table, key);
      forall i | 0 <= i < |rest|
        ensures OfDevice(rest[i], key, excluded, aliasing)
      {
        assert rest[i] == messages[i + 1];
      }
      var all := q0 + messages;
      SplitFirst(q0, messages);
      PeriodicStep(q0, m, rest, all, n, q1, first.outcome);
      Periodic(first.table, key, rest, n, excluded, aliasing);
      RunCons(t, messages, count, excluded, aliasing);
      var r := Run(t, messages, count, excluded, aliasing);
      var r1 := Run(first.table, rest, count, excluded, aliasing);
      JoinOutcomes(r.outcomes, r1.outcomes, all, |q0|, q1 + rest, |q1|, n);
      if rest != [] {
        UpdateTwice(t.queues, key, q1, Leftover(all, n));
      }
    }
  }

  lemma SplitFirst(q0: seq<Value>, messages: seq<Value>)
    requires messages != []
    ensures q0 + messages == q0 + [messages[0]] + messages[1..]
  {
    assert messages == [messages[0]] + messages[1..];
  }

  lemma UpdateTwice(queues: map<string, seq<Value>>, key: string, a: seq<Value>, b: seq<Value>)
    ensures queues[key := a][key := b] == queues[key := b]
  {
  }

  /** The outcomes of a run are its first call's followed by the rest's, so
      they line up with the expected ones shifted by one. */
  lemma JoinOutcomes(outcomes: seq<Outcome>, later: seq<Outcome>, all: seq<Value>, before: nat,
                     laterAll: seq<Value>, laterBefore: nat, n: nat)
    requires n >= 1 && |outcomes| == |later| + 1
    requires before + |outcomes| <= |all| && laterBefore + |later| <= |laterAll|
    requires outcomes[0] == Expected(all, before, 0, n)
    requires forall i :: 1 <= i < |outcomes| ==> outcomes[i] == later[i - 1]
    requires forall i :: 0 <= i < |later| ==> later[i] == Expected(laterAll, laterBefore, i, n)
    requires forall i :: 0 <= i < |later| ==>
               Expected(laterAll, laterBefore, i, n) == Expected(all, before, i + 1, n)
    ensures forall i :: 0 <= i < |outcomes| ==> outcomes[i] == Expected(all, before, i, n)
  {
    forall i | 1 <= i < |outcomes|
      ensures outcomes[i] == Expected(all, before, i, n)
    {
      assert outcomes[i] == later[i - 1];
    }
  }

  /** One message of the device: appended below the count, framed with the
      queue at the count. */
  lemma DeviceStep(t: Table, m: Value, key: string, n: nat, excluded: Option<Value>,
                   aliasing: Aliasing)
    requires n >= 1 && OfDevice(m, key, excluded, aliasing) && Routable(t, m, key)
    ensures var first := Stash(t, m, Some(Num(n)), excluded, aliasing);
            var q0 := QueueOf(t, key);
            var q1 := QueueOf(first.table, key);
            first.table.queues == t.queues[key := q1] && key in first.table.queues &&
            (|q0| + 1 < n ==> q1 == q0 + [m] && first.outcome == Queued) &&
            (|q0| + 1 >= n ==> q1 == [] && first.outcome == Flushed(q0 + [m]))
  {
    StashOfDevice(t, m, key, Some(Num(n)), excluded, aliasing);
    FileQueues(t, m, if key in t.queues then Existing(key) else Fresh(key), Num(n));
  }

  /** `Run` on a non-empty stream: the first call, then the rest. */
  lemma RunCons(t: Table, messages: seq<Value>, batchCount: Option<Value>, excluded: Option<Value>,
                aliasing: Aliasing)
    requires messages != []
    ensures var first := Stash(t, messages[0], batchCount, excluded, aliasing);
            var rest := Run(first.table, messages[1..], batchCount, excluded, aliasing);
            var r := Run(t, messages, batchCount, excluded, aliasing);
            r.table == rest.table &&
            r.outcomes[0] == first.outcome &&
            forall i :: 1 <= i < |messages| ==> r.outcomes[i] == rest.outcomes[i - 1]
  {
    var first := Stash(t, messages[0], batchCount, excluded, aliasing);
    var rest := Run(first.table, messages[1..], batchCount, excluded, aliasing);
    var r := Run(t, messages, batchCount, excluded, aliasing);
    assert r == Trace(rest.table, [first.outcome] + rest.outcomes);
    Shifted(r.outcomes, first.outcome, rest.outcomes);
  }

  lemma Shifted<T>(all: seq<T>, head: T, tail: seq<T>)
    requires all == [head] + tail
    ensures all[0] == head && forall i :: 1 <= i < |all| ==> all[i] == tail[i - 1]
  {
  }

  /** One message of the induction in `Periodic`: the queue `q1` after it
      shifts the stream without changing where the frames fall. */
  lemma PeriodicStep(q0: seq<Value>, m: Value, rest: seq<Value>, all: seq<Value>, n: nat,
                     q1: seq<Value>, outcome: Outcome)
    requires n >= 1 && |q0| < n && all == q0 + [m] + rest
    requires |q0| + 1 < n ==> q1 == q0 + [m] && outcome == Queued
    requires |q0| + 1 >= n ==> q1 == [] && outcome == Flushed(q0 + [m])
    ensures |q1| < n
    ensures outcome == Expected(all, |q0|, 0, n)
    ensures forall i :: 0 <= i < |rest| ==>
              Expected(q1 + rest, |q1|, i, n) == Expected(all, |q0|, i + 1, n)
    ensures rest != [] ==> Leftover(q1 + rest, n) == Leftover(all, n)
    ensures rest == [] ==> q1 == Leftover(all, n)
  {
    if |q0| + 1 < n {
      PeriodicQueued(q0, m, rest, all, n);
    } else {
      PeriodicFlushed(q0, m, rest, all, n);
      assert q1 + rest == rest;
    }
  }

  /** `PeriodicStep` when the message only joins the queue. */
  lemma PeriodicQueued(q0: seq<Value>, m: Value, rest: seq<Value>, all: seq<Value>, n: nat)
    requires n >= 1 && |q0| + 1 < n && all == q0 + [m] + rest
    ensures Expected(all, |q0|, 0, n) == Queued
    ensures forall i :: 0 <= i < |rest| ==>
              Expected(q0 + [m] + rest, |q0 + [m]|, i, n) == Expected(all, |q0|, i + 1, n)
    ensures rest == [] ==> q0 + [m] == Leftover(all, n)
  {
    var q1 := q0 + [m];
    ModSmall(|q0| + 1, n);
    assert q1 + rest == all;
    assert all[..|q0| + 1] == q1;
    forall i | 0 <= i < |rest|
      ensures Expected(all, |q1|, i, n) == Expected(all, |q0|, i + 1, n)
    {
    }
  }

  /** `PeriodicStep` when the message completes a frame. */
  lemma PeriodicFlushed(q0: seq<Value>, m: Value, rest: seq<Value>, all: seq<Value>, n: nat)
    requires n >= 1 && |q0| < n && |q0| + 1 >= n && all == q0 + [m] + rest
    ensures Expected(all, |q0|, 0, n) == Flushed(q0 + [m])
    ensures forall i :: 0 <= i < |rest| ==> Expected(rest, 0, i, n) == Expected(all, |q0|, i + 1, n)
    ensures Leftover(rest, n) == Leftover(all, n)
  {
    ModSmall(0, n);
    ModShift(0, n);
    assert all[..n] == q0 + [m];
    assert rest == all[n..];
    forall i | 0 <= i < |rest|
      ensures Expected(rest, 0, i, n) == Expected(all, |q0|, i + 1, n)
    {
      ExpectedShift(all, n, i);
    }
    LeftoverShift(all, n);
  }

  /** Dropping the first frame's worth of messages keeps what is left over. */
  lemma LeftoverShift(all: seq<Value>, n: nat)
    requires 1 <= n <= |all|
    ensures Leftover(all[n..], n) == Leftover(all, n)
  {
    var rest := all[n..];
    ModShift(|rest|, n);
    assert |rest| + n == |all|;
    assert rest[|rest| - |rest| % n..] == all[|all| - |all| % n..];
  }

  /** Dropping the first frame's worth of messages shifts every position by
      `n` and keeps the frames. */
  lemma ExpectedShift(all: seq<Value>, n: nat, i: nat)
    requires n >= 1 && n + i + 1 <= |all|
    ensures Expected(all[n..], 0, i, n) == Expected(all, n, i, n)
  {
    ModShift(i + 1, n);
    if (i + 1) % n == 0 && i + 1 >= n {
      assert all[n..][i + 1 - n..i + 1] == all[n + i + 1 - n..n + i + 1];
    }
  }

  /** Eleven messages of one device with a count of ten: the tenth call
      returns the one frame, holding the first ten messages, every other call
      returns `null`, and the eleventh message stays queued. */
  lemma ElevenMessages(messages: seq<Value>, excluded: Option<Value>, aliasing: Aliasing)
    requires |messages| == 11
    requires forall i :: 0 <= i < 11 ==> ByMac(messages[i], "01:01:01", excluded)
    requires !Has(EmptyTable(), DeviceKey(messages[0]))
    ensures var r := Run(EmptyTable(), messages, Some(Num(10)), excluded, aliasing);
            r.outcomes[9] == Flushed(messages[..10]) &&
            (forall i :: 0 <= i < 11 && i != 9 ==> r.outcomes[i] == Queued) &&
            r.table.queues == map["01:01:01" := messages[10..]]
  {
    var t := EmptyTable();
    DigitKeyNotInherited("01:01:01");
    assert QueueOf(t, "01:01:01") + messages == messages;
    Periodic(t, "01:01:01", messages, 10, excluded, aliasing);
    TenOfEleven(messages);
  }

  /** Where the frames of eleven messages fall with a count of ten. */
  lemma TenOfEleven(messages: seq<Value>)
    requires |messages| == 11
    ensures Expected(messages, 0, 9, 10) == Flushed(messages[..10])
    ensures forall i :: 0 <= i < 11 && i != 9 ==> Expected(messages, 0, i, 10) == Queued
    ensures Leftover(messages, 10) == messages[10..]
  {
    assert 10 % 10 == 0 && 11 % 10 == 1;
    forall i | 0 <= i < 11 && i != 9
      ensures Expected(messages, 0, i, 10) == Queued
    {
    }
  }

  // ---------------------------------------------------------------------
  // The `deviceId` branch (batch.js:87-88)

  /** As written, the second message of a device known only by its
      `deviceId` is looked up under `macAddress`, which it lacks: the push
      onto `deviceMessageArray[undefined]` throws a TypeError and the message
      is lost, whatever the count above one. The first message is queued. */
  lemma DeviceIdAsWrittenThrows(t: Table, first: Value, second: Value, key: string, n: nat,
                                excluded: Option<Value>)
    requires n >= 2 && key != "undefined" && key !in ObjectPrototypeKeys
    requires key !in t.queues && "undefined" !in t.queues
    requires ById(first, key, excluded) && ById(second, key, excluded)
    ensures var r := Run(t, [first, second], Some(Num(n)), excluded, AsWritten);
            r.outcomes == [Queued, Thrown(TypeError)] &&
            r.table.queues == t.queues[key := [first]]
  {
    var count := Some(Num(n));
    UndefinedNotInherited();
    AsWrittenFirst(t, first, key, n, excluded);
    var one := Stash(t, first, count, excluded, AsWritten);
    AsWrittenSecond(one.table, second, key, n, excluded);
    RunTwo(t, first, second, count, excluded, AsWritten);
  }

  /** Two messages are stashed one after the other. */
  lemma RunTwo(t: Table, first: Value, second: Value, batchCount: Option<Value>, excluded: Option<Value>,
               aliasing: Aliasing)
    ensures var one := Stash(t, first, batchCount, excluded, aliasing);
            var two := Stash(one.table, second, batchCount, excluded, aliasing);
            Run(t, [first, second], batchCount, excluded, aliasing) == Trace(two.table, [one.outcome, two.outcome])
  {
    var one := Stash(t, first, batchCount, excluded, aliasing);
    var two := Stash(one.table, second, batchCount, excluded, aliasing);
    assert [first, second][1..] == [second];
    assert [second][1..] == [];
    assert Run(one.table, [second], batchCount, excluded, aliasing) == Trace(two.table, [two.outcome]);
  }

  /** The first message of a `deviceId`-only device opens its queue. */
  lemma AsWrittenFirst(t: Table, first: Value, key: string, n: nat, excluded: Option<Value>)
    requires n >= 2 && key !in ObjectPrototypeKeys && "undefined" !in ObjectPrototypeKeys
    requires key !in t.queues && "undefined" !in t.queues
    requires ById(first, key, excluded)
    ensures var one := Stash(t, first, Some(Num(n)), excluded, AsWritten);
            one.outcome == Queued && one.table.queues == t.queues[key := [first]]
  {
    var ident := Identify(first).value;
    assert ident.id == Lookup(PropertiesOf(first), "deviceId").value;
    assert KeyOf(ident.mac) == "undefined" && KeyOf(ident.deviceId) == key;
    assert Resolve(t, ident, AsWritten) == Fresh(key);
    StashFiles(t, first, Some(Num(n)), excluded, AsWritten);
    FileQueues(t, first, Fresh(key), Num(n));
    assert QueueOf(t, key) + [first] == [first];
  }

  /** Once the device's queue exists, its next message throws. */
  lemma AsWrittenSecond(t: Table, second: Value, key: string, n: nat, excluded: Option<Value>)
    requires n >= 1 && key != "undefined" && "undefined" !in ObjectPrototypeKeys
    requires key in t.queues && "undefined" !in t.queues
    requires ById(second, key, excluded)
    ensures var two := Stash(t, second, Some(Num(n)), excluded, AsWritten);
            two.outcome == Thrown(TypeError) && two.table == t
  {
    var ident := Identify(second).value;
    assert KeyOf(ident.mac) == "undefined" && KeyOf(ident.deviceId) == key;
    assert Resolve(t, ident, AsWritten) == Existing("undefined");
    StashFiles(t, second, Some(Num(n)), excluded, AsWritten);
    FileQueues(t, second, Existing("undefined"), Num(n));
  }

  /** Filed under its `deviceId`, the same device's messages are batched
      like any other device's. */
  lemma DeviceIdIntendedBatches(messages: seq<Value>, key: string, n: nat, excluded: Option<Value>)
    requires n >= 1 && key != "undefined" && key !in ObjectPrototypeKeys
    requires forall i :: 0 <= i < |messages| ==> ById(messages[i], key, excluded)
    ensures var r := Run(EmptyTable(), messages, Some(Num(n)), excluded, Intended);
            (forall i :: 0 <= i < |messages| ==> r.outcomes[i] == Expected(messages, 0, i, n)) &&
            (messages != [] ==> r.table.queues == map[key := Leftover(messages, n)])
  {
    var t := EmptyTable();
    assert QueueOf(t, key) + messages == messages;
    Periodic(t, key, messages, n, excluded, Intended);
  }
}
