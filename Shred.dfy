/** The shredder's logic on values: recognising a batched frame, reading its
    content back into the messages it holds, and the messages `receive`
    publishes for each input. */
module Shred {
  import opened Values
  import opened Json
  import Utf8
  import JsonParser
  import JsonRoundTrip

  /** `Buffer.from(content)`: a string gives its UTF-8 bytes, a typed array
      its bytes, an array its elements converted to bytes, and the JSON form
      of a Buffer (`{type: "Buffer", data: [...]}`) the bytes of its data. A
      number, a boolean, `null` or another object is refused. */
  function BufferFrom(content: Value): (r: Result<seq<byte>>)
    ensures content.Str? ==> r == Ok(Utf8.Encode(content.s))
    ensures content.Bytes? ==> r == Ok(content.data)
    ensures content.Arr? ==> r.Ok? && |r.value| == |content.items|
    ensures content.Null? || content.Bool? || content.Num? ==> r == Err(TypeError)
  {
    match content
    case Str(s) => Ok(Utf8.Encode(s))
    case Bytes(data) => Ok(data)
    case Arr(items) => Ok(seq(|items|, i requires 0 <= i < |items| => ToUint8(items[i])))
    case Obj(props) =>
      var data := Lookup(props, "data");
      if Lookup(props, "type") == Some(Str("Buffer")) && data.Some? && data.value.Arr? then
        var items := data.value.items;
        Ok(seq(|items|, i requires 0 <= i < |items| => ToUint8(items[i])))
      else Err(TypeError)
    case _ => Err(TypeError)
  }

  /** A message the shredder takes apart: its properties say `batched` is
      the boolean `true` and it has content. */
  predicate IsBatched(message: Value) {
    var props := Get(message, "properties");
    props.Some? && Get(props.value, "batched") == Some(Bool(true)) && Present(Get(message, "content"))
  }

  /** `shred(message)`: the array a batched frame's content parses to, or
      the message itself. Reading `properties` of `null` throws, content
      `Buffer.from` refuses throws, text that is not JSON throws a
      SyntaxError, and content that parses to `null` throws when its
      `constructor` is read. */
  function Shred(message: Value): (r: Result<Value>)
    ensures message.Null? ==> r == Err(TypeError)
    ensures !message.Null? && !IsBatched(message) ==> r == Ok(message)
    ensures r.Ok? && r.value != message ==> IsBatched(message) && r.value.Arr?
    ensures IsBatched(message) ==>
              var bytes := BufferFrom(Get(message, "content").value);
              (bytes.Err? ==> r == Err(bytes.error)) &&
              (bytes.Ok? ==>
                 var parsed := JsonParser.Parse(Utf8.Decode(bytes.value));
                 (parsed.None? ==> r == Err(SyntaxError)) &&
                 (parsed == Some(Null) ==> r == Err(TypeError)) &&
                 (parsed.Some? && parsed.value.Arr? ==> r == Ok(parsed.value)) &&
                 (parsed.Some? && !parsed.value.Null? && !parsed.value.Arr? ==> r == Ok(message)))
  {
    if message.Null? then Err(TypeError)
    else if !IsBatched(message) then Ok(message)
    else
      match BufferFrom(Get(message, "content").value)
      case Err(e) => Err(e)
      case Ok(bytes) =>
        match JsonParser.Parse(Utf8.Decode(bytes))
        case None => Err(SyntaxError)
        case Some(Null) => Err(TypeError)
        case Some(Arr(items)) => Ok(Arr(items))
        case Some(_) => Ok(message)
  }

  /** What `receive` publishes for what `shred` returned: every element of
      an array, in order, or else the message it was given. */
  function Fanout(shredded: Value, message: Value): (published: seq<Value>)
    ensures shredded.Arr? ==> published == shredded.items
    ensures !shredded.Arr? ==> published == [message]
  {
    if shredded.Arr? then shredded.items else [message]
  }

  // ---------------------------------------------------------------------
  // Frames come apart into the messages they were built from

  /** A frame whose properties carry `batched: true` and whose content holds
      the UTF-8 bytes of the JSON text of `queue` shreds back into `queue`,
      every typed array in it turned into the array of its bytes. */
  lemma {:induction false} ShredFrame(properties: seq<Prop>, queue: seq<Value>)
    requires Lookup(properties, "batched") == Some(Bool(true))
    requires forall i :: 0 <= i < |queue| ==> WellFormed(queue[i])
    ensures var frame := Obj([Prop("properties", Obj(properties)),
                              Prop("content", Bytes(Utf8.Encode(Stringify(Arr(queue)))))]);
            Shred(frame) == Ok(Replace(Arr(queue)))
  {
    var text := Stringify(Arr(queue));
    ShredBytes(properties, Utf8.Encode(text));
    Utf8.DecodeEncode(text);
    JsonRoundTrip.ParseStringify(Arr(queue));
  }

  /** A message shaped like a frame is shredded by parsing the text its
      content bytes decode to. */
  lemma ShredBytes(properties: seq<Prop>, bytes: seq<byte>)
    requires Lookup(properties, "batched") == Some(Bool(true))
    ensures var frame := Obj([Prop("properties", Obj(properties)), Prop("content", Bytes(bytes))]);
            Shred(frame) == match JsonParser.Parse(Utf8.Decode(bytes))
                            case None => Err(SyntaxError)
                            case Some(Null) => Err(TypeError)
                            case Some(Arr(items)) => Ok(Arr(items))
                            case Some(_) => Ok(frame)
  {
    var frame := Obj([Prop("properties", Obj(properties)), Prop("content", Bytes(bytes))]);
    assert Get(frame, "properties") == Some(Obj(properties));
    assert Get(frame, "content") == Some(Bytes(bytes));
    assert Get(Obj(properties), "batched") == Some(Bool(true));
    assert IsBatched(frame);
    assert BufferFrom(Bytes(bytes)) == Ok(bytes);
  }

  /** Batched content given as a string is parsed as that very text. */
  lemma ShredText(message: Value, text: string)
    requires IsBatched(message) && Get(message, "content") == Some(Str(text))
    ensures Shred(message) == match JsonParser.Parse(text)
                              case None => Err(SyntaxError)
                              case Some(Null) => Err(TypeError)
                              case Some(Arr(items)) => Ok(Arr(items))
                              case Some(_) => Ok(message)
  {
    Utf8.DecodeEncode(text);
  }

  /** A batched message whose content is not JSON text, such as
      `{broken:"json"`, makes `shred` throw a SyntaxError. */
  lemma BrokenContentThrows()
    ensures var message := Obj([Prop("properties", Obj([Prop("batched", Bool(true))])),
                                Prop("content", Str("{broken:\"json\""))]);
            Shred(message) == Err(SyntaxError)
  {
    var text := "{broken:\"json\"";
    var message := Obj([Prop("properties", Obj([Prop("batched", Bool(true))])), Prop("content", Str(text))]);
    assert Get(message, "properties") == Some(Obj([Prop("batched", Bool(true))]));
    assert Get(message, "content") == Some(Str(text));
    UnquotedKeyRejected(text);
    ShredText(message, text);
  }

  /** A batched message whose content escapes a character outside the Basic
      Multilingual Plane as a UTF-16 surrogate pair, `["\ud83d\ude00"]`, is
      shredded into the one string holding U+1F600. */
  lemma SurrogatePairShreds(message: Value, text: string)
    requires IsBatched(message) && Get(message, "content") == Some(Str(text))
    requires text == "[\"\\ud83d\\ude00\"]"
    ensures Shred(message) == Ok(Arr([Str("\U{1F600}")]))
  {
    JsonRoundTrip.SurrogatePairArray(text);
    assert JsonParser.SkipWs("") == "";
    ShredText(message, text);
  }

  /** An object whose first key is not a string literal is not JSON. */
  lemma UnquotedKeyRejected(text: string)
    requires |text| >= 2 && text[0] == '{'
    requires !JsonParser.IsWhitespace(text[1]) && text[1] != '}' && text[1] != '"'
    ensures JsonParser.Parse(text) == None
  {
    assert JsonParser.SkipWs(text) == text;
    assert JsonParser.SkipWs(text[1..]) == text[1..];
    assert JsonParser.ParseMembers(text[1..]) == None;
    assert JsonParser.ParseObject(text[1..]) == None;
    assert JsonParser.ParseValue(text) == None;
  }

  /** The content bytes of a queued message survive the trip: the array of
      numbers a typed array became converts back to the same bytes. */
  lemma ContentSurvives(data: seq<byte>)
    ensures BufferFrom(Replace(Bytes(data))) == Ok(data)
  {
    var items := seq(|data|, i requires 0 <= i < |data| => Num(data[i]));
    assert Replace(Bytes(data)) == Arr(items);
    var bytes := seq(|items|, i requires 0 <= i < |items| => ToUint8(items[i]));
    forall i | 0 <= i < |data|
      ensures bytes[i] == data[i]
    {
      assert ToNumber(items[i]) == Some(data[i]);
    }
    assert bytes == data;
  }
}
