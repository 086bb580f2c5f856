/** The batcher and the shredder on one bus: every frame the batcher
    publishes comes apart, in the shredder, into the messages it holds. */
module Pipeline {
  import opened Values
  import opened Json
  import opened Batch
  import opened BatchRun
  import opened Shred
  import Utf8

  /** `v` with every `Uint8Array` in it turned into the array of its bytes,
      for each message in turn. */
  function ReplaceAll(messages: seq<Value>): (r: seq<Value>)
    ensures |r| == |messages|
  {
    seq(|messages|, i requires 0 <= i < |messages| => Replace(messages[i]))
  }

  /** A frame of well-formed messages shreds into those messages, in order,
      whatever publish-as section wrote its properties. */
  lemma FrameShreds(queue: seq<Value>, publishAs: Option<Value>)
    requires queue != []
    requires forall i :: 0 <= i < |queue| ==> WellFormed(queue[i])
    ensures Shred.Shred(Frame(queue, publishAs)) == Ok(Arr(ReplaceAll(queue)))
    ensures Fanout(Arr(ReplaceAll(queue)), Frame(queue, publishAs)) == ReplaceAll(queue)
  {
    var last := queue[|queue| - 1];
    var properties := ApplyPublishAs(PropertiesOf(last), publishAs);
    ApplyPublishAsReads(PropertiesOf(last), publishAs, "batched");
    ShredFrame(properties, queue);
    assert Frame(queue, publishAs) == Obj([Prop("properties", Obj(properties)),
                                          Prop("content", Bytes(Utf8.Encode(Stringify(Arr(queue)))))]);
    ReplaceArr(queue);
  }

  lemma ReplaceArr(queue: seq<Value>)
    ensures Replace(Arr(queue)) == Arr(ReplaceAll(queue))
  {
  }

  /** What the shredder publishes for `inputs` received in turn, or `None`
      once one of them throws. */
  function Republished(inputs: seq<Value>): Option<seq<Value>>
    decreases |inputs|
  {
    if inputs == [] then Some([])
    else
      var earlier := Republished(inputs[..|inputs| - 1]);
      var last := inputs[|inputs| - 1];
      match Shred.Shred(last)
      case Err(_) => None
      case Ok(shredded) => if earlier.None? then None else Some(earlier.value + Fanout(shredded, last))
  }

  /** The messages queued under the first `n` keys, key by key. */
  function QueuedUnder(t: Table, keys: seq<string>, n: nat): (r: seq<Value>)
    requires n <= |keys|
  {
    if n == 0 then [] else QueuedUnder(t, keys, n - 1) + QueueOf(t, keys[n - 1])
  }

  /** Every message queued in the table is well formed. */
  predicate QueuedWellFormed(t: Table) {
    forall k, i :: k in t.queues && 0 <= i < |t.queues[k]| ==> WellFormed(t.queues[k][i])
  }

  /** The shredder, fed the frames `destroy` publishes, publishes again every
      message that was queued, in the order the keys were visited and, within
      a queue, in arrival order. */
  lemma {:induction false} DrainRepublishes(t: Table, keys: seq<string>, n: nat, publishAs: Option<Value>)
    requires n <= |keys| && QueuedWellFormed(t)
    ensures Republished(DrainFrames(t, keys, n, publishAs)) == Some(ReplaceAll(QueuedUnder(t, keys, n)))
  {
    if n > 0 {
      var m: nat := n - 1;
      DrainRepublishes(t, keys, m, publishAs);
      DrainRepublishesNext(t, keys, m, n, publishAs);
    }
  }

  /** Visiting one key more republishes the messages of its queue last. */
  lemma DrainRepublishesNext(t: Table, keys: seq<string>, i: nat, n: nat, publishAs: Option<Value>)
    requires n == i + 1 && n <= |keys| && QueuedWellFormed(t)
    requires Republished(DrainFrames(t, keys, i, publishAs)) == Some(ReplaceAll(QueuedUnder(t, keys, i)))
    ensures Republished(DrainFrames(t, keys, n, publishAs)) == Some(ReplaceAll(QueuedUnder(t, keys, n)))
  {
    DrainFramesNext(t, keys, i, publishAs);
    QueuedUnderNext(t, keys, i);
    var queue := QueueOf(t, keys[i]);
    if queue != [] {
      FrameShreds(queue, publishAs);
      RepublishedFrame(DrainFrames(t, keys, i, publishAs), QueuedUnder(t, keys, i), Frame(queue, publishAs), queue);
    } else {
      assert QueuedUnder(t, keys, i) + queue == QueuedUnder(t, keys, i);
    }
  }

  lemma QueuedUnderNext(t: Table, keys: seq<string>, i: nat)
    requires i < |keys|
    ensures QueuedUnder(t, keys, i + 1) == QueuedUnder(t, keys, i) + QueueOf(t, keys[i])
  {
  }

  /** One more frame republishes the messages it holds after the others. */
  lemma RepublishedFrame(frames: seq<Value>, before: seq<Value>, frame: Value, queue: seq<Value>)
    requires Republished(frames) == Some(ReplaceAll(before))
    requires Shred.Shred(frame) == Ok(Arr(ReplaceAll(queue)))
    ensures Republished(frames + [frame]) == Some(ReplaceAll(before + queue))
  {
    RepublishedSnoc(frames, frame, Arr(ReplaceAll(queue)));
    ReplaceAllConcat(before, queue);
  }

  lemma ReplaceAllConcat(a: seq<Value>, b: seq<Value>)
    ensures ReplaceAll(a + b) == ReplaceAll(a) + ReplaceAll(b)
  {
    var l, r := ReplaceAll(a + b), ReplaceAll(a) + ReplaceAll(b);
    assert |l| == |r|;
    forall i | 0 <= i < |l|
      ensures l[i] == r[i]
    {
      if i < |a| {
        assert (a + b)[i] == a[i];
      } else {
        assert (a + b)[i] == b[i - |a|];
      }
    }
  }

  /** The shredder's output for one more input follows what it published
      for the earlier ones. */
  lemma RepublishedSnoc(inputs: seq<Value>, last: Value, shredded: Value)
    requires Shred.Shred(last) == Ok(shredded)
    ensures var earlier := Republished(inputs);
            Republished(inputs + [last]) == if earlier.None? then None else Some(earlier.value + Fanout(shredded, last))
  {
    var all := inputs + [last];
    assert all[..|all| - 1] == inputs;
  }

  /** The message each of five sends in the combined run: a device's MAC
      address and the UTF-8 bytes of `text` as a `Uint8Array`. */
  function Sample(text: string): Value {
    Obj([Prop("properties", Obj([Prop("macAddress", Str("01:01:01:01:01"))])),
         Prop("content", Bytes(Utf8.Encode(text)))])
  }

  /** `Buffer.from(message.content).toString()`. */
  function ContentText(message: Value): Option<string> {
    match Get(message, "content")
    case None => None
    case Some(content) =>
      match BufferFrom(content)
      case Err(_) => None
      case Ok(bytes) => Some(Utf8.Decode(bytes))
  }

  /** Five messages of one device through a batcher with a count of five:
      the fifth call returns the frame of all five, and the shredder turns
      that frame back into five messages whose content reads as the text
      that was sent. */
  lemma FiveThroughPipeline(text: string)
    ensures var messages := [Sample(text), Sample(text), Sample(text), Sample(text), Sample(text)];
            var r := Run(EmptyTable(), messages, Some(Num(5)), None, Intended);
            var frame := Frame(messages, None);
            r.outcomes == [Queued, Queued, Queued, Queued, Flushed(messages)] &&
            Shred.Shred(frame).Ok? &&
            var out := Fanout(Shred.Shred(frame).value, frame);
            |out| == 5 && forall i :: 0 <= i < 5 ==> ContentText(out[i]) == Some(text)
  {
    var m := Sample(text);
    SampleRoutable(text);
    FiveCopies(m);
    FiveOfOneDevice(EmptyTable(), [m, m, m, m, m], m, "01:01:01:01:01");
    SampleSurvives(text);
    ContentThroughFrame([m, m, m, m, m], m, text);
  }

  lemma FiveCopies(m: Value)
    ensures forall i :: 0 <= i < 5 ==> [m, m, m, m, m][i] == m
  {
  }

  /** With a count of five, five messages of one device are returned as one
      frame by the fifth call. */
  lemma FiveOfOneDevice(t: Table, messages: seq<Value>, m: Value, key: string)
    requires |messages| == 5 && forall i :: 0 <= i < 5 ==> messages[i] == m
    requires QueueOf(t, key) == [] && ByMac(m, key, None) && Routable(t, m, key)
    ensures Run(t, messages, Some(Num(5)), None, Intended).outcomes
            == [Queued, Queued, Queued, Queued, Flushed(messages)]
  {
    assert QueueOf(t, key) + messages == messages;
    Periodic(t, key, messages, 5, None, Intended);
    ExpectedOfFive(Run(t, messages, Some(Num(5)), None, Intended).outcomes, messages);
  }

  /** The outcomes `Expected` gives five messages with a count of five. */
  lemma ExpectedOfFive(outcomes: seq<Outcome>, messages: seq<Value>)
    requires |outcomes| == |messages| == 5
    requires forall i :: 0 <= i < 5 ==> outcomes[i] == Expected(messages, 0, i, 5)
    ensures outcomes == [Queued, Queued, Queued, Queued, Flushed(messages)]
  {
    FiveOfFive(messages);
    assert outcomes[4] == Expected(messages, 0, 4, 5);
    FourThenOne(outcomes, Flushed(messages));
  }

  lemma FourThenOne(outcomes: seq<Outcome>, last: Outcome)
    requires |outcomes| == 5 && outcomes[4] == last
    requires forall i :: 0 <= i < 4 ==> outcomes[i] == Queued
    ensures outcomes == [Queued, Queued, Queued, Queued, last]
  {
  }

  /** Copies of a message whose content reads as `text` after the replacer
      come out of the shredder, from their frame, with content that still
      reads as `text`. */
  lemma ContentThroughFrame(messages: seq<Value>, m: Value, text: string)
    requires messages != [] && forall i :: 0 <= i < |messages| ==> messages[i] == m
    requires WellFormed(m) && ContentText(Replace(m)) == Some(text)
    ensures var frame := Frame(messages, None);
            Shred.Shred(frame).Ok? &&
            var out := Fanout(Shred.Shred(frame).value, frame);
            |out| == |messages| && forall i :: 0 <= i < |out| ==> ContentText(out[i]) == Some(text)
  {
    FrameShreds(messages, None);
  }

  /** A sample message is filed under its MAC address, which nothing in an
      empty table answers to. */
  lemma SampleRoutable(text: string)
    ensures ByMac(Sample(text), "01:01:01:01:01", None)
    ensures Routable(EmptyTable(), Sample(text), "01:01:01:01:01")
  {
    var m := Sample(text);
    assert PropertiesOf(m) == [Prop("macAddress", Str("01:01:01:01:01"))];
    DigitKeyNotInherited("01:01:01:01:01");
    UndefinedNotInherited();
    assert DeviceKey(m) == "undefined";
  }

  /** Where the frame of five messages falls with a count of five. */
  lemma FiveOfFive(messages: seq<Value>)
    requires |messages| == 5
    ensures Expected(messages, 0, 4, 5) == Flushed(messages)
    ensures forall i :: 0 <= i < 4 ==> Expected(messages, 0, i, 5) == Queued
  {
    assert messages[..5] == messages;
  }

  /** A sample message is well formed, and its content, through the
      replacer, still reads as its text. */
  lemma SampleSurvives(text: string)
    ensures WellFormed(Sample(text))
    ensures ContentText(Replace(Sample(text))) == Some(text)
  {
    var props := [Prop("macAddress", Str("01:01:01:01:01"))];
    var content := [Prop("properties", Obj(props)), Prop("content", Bytes(Utf8.Encode(text)))];
    LookupReplace(content, "content");
    ContentSurvives(Utf8.Encode(text));
    Utf8.DecodeEncode(text);
  }
}
