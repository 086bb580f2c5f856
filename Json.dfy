/** `JSON.stringify(value, UInt8ArrayFormatter)`, the encoding the batcher
    writes into a frame's content. */
module Json {
  import opened Values

  /** The replacer the batcher hands to `JSON.stringify`: a `Uint8Array`
      becomes the plain array of its byte values, anything else is kept. */
  function Uint8ArrayFormatter(v: Value): (r: Value)
    ensures v.Bytes? ==> r.Arr? && |r.items| == |v.data|
    ensures v.Bytes? ==> forall i :: 0 <= i < |v.data| ==> r.items[i] == Num(v.data[i])
    ensures !v.Bytes? ==> r == v
  {
    if v.Bytes? then Arr(seq(|v.data|, i requires 0 <= i < |v.data| => Num(v.data[i]))) else v
  }

  /** The value `JSON.stringify` writes once the replacer has run at every
      node: every `Uint8Array`, however deep, is an array of numbers. */
  function Replace(v: Value): (r: Value)
    decreases v
  {
    match v
    case Bytes(_) => Uint8ArrayFormatter(v)
    case Arr(items) => Arr(seq(|items|, i requires 0 <= i < |items| => Replace(items[i])))
    case Obj(props) =>
      Obj(seq(|props|, i requires 0 <= i < |props| => Prop(props[i].key, Replace(props[i].val))))
    case _ => v
  }

  /** After the replacer no typed array is left, and object keys are kept, so
      a well-formed value stays well-formed. */
  lemma {:induction false} ReplaceIsJson(v: Value)
    ensures JsonOnly(Replace(v))
    ensures WellFormed(v) ==> WellFormed(Replace(v))
    decreases v
  {
    match v
    case Bytes(_) =>
    case Arr(items) =>
      forall i | 0 <= i < |items|
        ensures JsonOnly(Replace(items[i])) && (WellFormed(items[i]) ==> WellFormed(Replace(items[i])))
      {
        ReplaceIsJson(items[i]);
      }
    case Obj(props) =>
      forall i | 0 <= i < |props|
        ensures JsonOnly(Replace(props[i].val)) && (WellFormed(props[i].val) ==> WellFormed(Replace(props[i].val)))
      {
        ReplaceIsJson(props[i].val);
      }
    case _ =>
  }

  /** Reading a property of a replaced object reads the replaced property. */
  lemma {:induction false} LookupReplace(props: seq<Prop>, key: string)
    ensures var r := Lookup(seq(|props|, i requires 0 <= i < |props| => Prop(props[i].key, Replace(props[i].val))), key);
            Lookup(props, key).None? ==> r.None?
    ensures var r := Lookup(seq(|props|, i requires 0 <= i < |props| => Prop(props[i].key, Replace(props[i].val))), key);
            Lookup(props, key).Some? ==> r == Some(Replace(Lookup(props, key).value))
  {
    if props != [] {
      var replaced := seq(|props|, i requires 0 <= i < |props| => Prop(props[i].key, Replace(props[i].val)));
      var tail := props[1..];
      LookupReplace(tail, key);
      assert replaced[1..] == seq(|tail|, i requires 0 <= i < |tail| => Prop(tail[i].key, Replace(tail[i].val)));
    }
  }

  // ---------------------------------------------------------------------
  // Strings

  /** A lower-case hexadecimal digit. */
  function HexDigit(d: int): (c: char)
    requires 0 <= d < 16
  {
    if d < 10 then ('0' as int + d) as char else ('a' as int + d - 10) as char
  }

  /** How `JSON.stringify` writes one character inside a string literal. */
  function EscapeChar(c: char): string {
    var n := c as int;
    if c == '"' then "\\\""
    else if c == '\\' then "\\\\"
    else if n == 8 then "\\b"
    else if n == 12 then "\\f"
    else if n == 10 then "\\n"
    else if n == 13 then "\\r"
    else if n == 9 then "\\t"
    else if n < 0x20 then "\\u00" + [HexDigit(n / 16), HexDigit(n % 16)]
    else [c]
  }

  function Escape(s: string): string {
    if s == [] then "" else EscapeChar(s[0]) + Escape(s[1..])
  }

  function Quote(s: string): string {
    "\"" + Escape(s) + "\""
  }

  // ---------------------------------------------------------------------
  // Values

  /** `JSON.stringify` without a replacer. A `Uint8Array` written this way
      becomes an object keyed by index, which is what the formatter avoids. */
  function Serialize(v: Value): (text: string)
    decreases v, 1
  {
    match v
    case Null => "null"
    case Bool(b) => if b then "true" else "false"
    case Num(n) => IntToString(n)
    case Str(s) => Quote(s)
    case Arr(items) => "[" + SerializeItems(items) + "]"
    case Obj(props) => "{" + SerializeProps(props) + "}"
    case Bytes(data) => "{" + SerializeIndexed(data, 0) + "}"
  }

  function SerializeItems(items: seq<Value>): string
    decreases items, 0
  {
    if items == [] then ""
    else if |items| == 1 then Serialize(items[0])
    else Serialize(items[0]) + "," + SerializeItems(items[1..])
  }

  function SerializeProps(props: seq<Prop>): string
    decreases props, 0
  {
    if props == [] then ""
    else
      var first := Quote(props[0].key) + ":" + Serialize(props[0].val);
      if |props| == 1 then first else first + "," + SerializeProps(props[1..])
  }

  function SerializeIndexed(data: seq<byte>, index: nat): string {
    if data == [] then ""
    else
      var first := Quote(NatToString(index)) + ":" + NatToString(data[0]);
      if |data| == 1 then first else first + "," + SerializeIndexed(data[1..], index + 1)
  }

  /** `JSON.stringify(v, UInt8ArrayFormatter)`. */
  function Stringify(v: Value): string {
    Serialize(Replace(v))
  }
}
