/** Parsing what the batcher writes gives back the value it wrote: the frame
    codec loses nothing. */
module JsonRoundTrip {
  import opened Values
  import opened Json
  import opened JsonParser

  /** What may follow a value inside the text `Serialize` writes. */
  predicate Boundary(rest: string) {
    rest == [] || rest[0] == ',' || rest[0] == ']' || rest[0] == '}'
  }

  lemma SerializeStart(v: Value)
    ensures |Serialize(v)| > 0
    ensures var c := Serialize(v)[0]; !IsWhitespace(c) && c != ']' && c != '}'
  {
    match v
    case Num(n) =>
      if n < 0 {
        assert Serialize(v)[0] == '-';
      } else {
        assert IsDigit(NatToString(n)[0]);
      }
    case _ =>
  }

  // ---------------------------------------------------------------------
  // Numbers

  lemma {:induction false} DigitSpanOf(d: string, rest: string)
    requires forall i :: 0 <= i < |d| ==> IsDigit(d[i])
    requires rest == [] || !IsDigit(rest[0])
    ensures DigitSpan(d + rest) == |d|
  {
    if d != [] {
      assert (d + rest)[1..] == d[1..] + rest;
      DigitSpanOf(d[1..], rest);
    }
  }

  lemma {:induction false} DigitsValueOf(n: nat)
    ensures DigitsValue(NatToString(n)) == n
  {
    if n >= 10 {
      var prefix := NatToString(n / 10);
      var s := prefix + [DigitChar(n % 10)];
      assert s[..|s| - 1] == prefix;
      DigitsValueOf(n / 10);
    }
  }

  /** The digits of `m` followed by a boundary are read as `m`. */
  lemma DigitsRead(m: nat, rest: string)
    requires Boundary(rest)
    ensures var d := NatToString(m);
            var t := d + rest;
            t != [] && IsDigit(t[0]) && t[..|d|] == d && t[|d|..] == rest &&
            (if t[0] == '0' then 1 else DigitSpan(t)) == |d| && DigitsValue(d) == m
  {
    var d := NatToString(m);
    var t := d + rest;
    DigitSpanOf(d, rest);
    DigitsValueOf(m);
    assert t[..|d|] == d && t[|d|..] == rest;
  }

  lemma NumberRoundTrip(n: int, rest: string)
    requires Boundary(rest)
    ensures ParseNumber(IntToString(n) + rest) == Some(Parsed(Num(n), rest))
  {
    var m: nat := if n < 0 then -n else n;
    var t := NatToString(m) + rest;
    if n < 0 {
      var s := IntToString(n) + rest;
      Assoc("-", NatToString(m), rest);
      Cons('-', t);
      SignedRead(s, t, m, rest, true);
    } else {
      SignedRead(t, t, m, rest, false);
    }
  }

  /** `ParseNumber` on the digits of `m`, after a minus sign or not. */
  lemma SignedRead(s: string, t: string, m: nat, rest: string, negative: bool)
    requires Boundary(rest) && t == NatToString(m) + rest
    requires if negative then s != [] && s[0] == '-' && s[1..] == t else s == t
    ensures ParseNumber(s) == Some(Parsed(Num(if negative then -(m as int) else m), rest))
  {
    DigitsRead(m, rest);
    var d := NatToString(m);
    assert (if s != [] && s[0] == '-' then s[1..] else s) == t;
    var len := if t[0] == '0' then 1 else DigitSpan(t);
    assert len == |d| && t[len..] == rest && t[..len] == d;
    assert !(rest != [] && (rest[0] == '.' || rest[0] == 'e' || rest[0] == 'E'));
  }

  // ---------------------------------------------------------------------
  // Strings

  lemma HexRoundTrip(d: int)
    requires 0 <= d < 16
    ensures HexValue(HexDigit(d)) == Some(d)
  {
  }

  /** One escaped character reads back as that character. */
  lemma EscapeCharRoundTrip(c: char, tail: string)
    ensures ParseChars(EscapeChar(c) + tail) ==
            match ParseChars(tail)
            case None => None
            case Some(p) => Some(Parsed([c] + p.value, p.rest))
  {
    var n := c as int;
    var s := EscapeChar(c) + tail;
    if c == '"' || c == '\\' || n == 8 || n == 12 || n == 10 || n == 13 || n == 9 {
      assert s[0] == '\\' && s[1..][1..] == tail;
      assert ParseEscape(s[1..]) == Some((c, 1));
      EscapedChar(s, c, 1, tail);
    } else if n < 0x20 {
      ControlEscape(c, tail);
    } else {
      assert s[0] == c && s[1..] == tail;
    }
  }

  /** A control character without a short escape is written `\u00XX`. */
  lemma ControlEscape(c: char, tail: string)
    requires c as int < 0x20 && c as int !in {8, 9, 10, 12, 13}
    ensures ParseChars(EscapeChar(c) + tail) ==
            match ParseChars(tail)
            case None => None
            case Some(p) => Some(Parsed([c] + p.value, p.rest))
  {
    var n := c as int;
    var s := EscapeChar(c) + tail;
    HexRoundTrip(n / 16);
    HexRoundTrip(n % 16);
    assert s[0] == '\\';
    var e := s[1..];
    assert e[0] == 'u' && e[1] == '0' && e[2] == '0';
    assert e[3] == HexDigit(n / 16) && e[4] == HexDigit(n % 16);
    assert ParseEscape(e) == Some((c, 5));
    assert s[1 + 5..] == tail;
    EscapedChar(s, c, 5, tail);
  }

  /** A backslash escape of length `k` for `c`, then `tail`. */
  lemma EscapedChar(s: string, c: char, k: nat, tail: string)
    requires s != [] && s[0] == '\\' && ParseEscape(s[1..]) == Some((c, k)) && s[1 + k..] == tail
    ensures ParseChars(s) ==
            match ParseChars(tail)
            case None => None
            case Some(p) => Some(Parsed([c] + p.value, p.rest))
  {
  }

  lemma {:induction false} EscapeRoundTrip(str: string, rest: string)
    ensures ParseChars(Escape(str) + "\"" + rest) == Some(Parsed(str, rest))
  {
    if str == [] {
      assert Escape(str) + "\"" + rest == "\"" + rest;
    } else {
      var tail := Escape(str[1..]) + "\"" + rest;
      assert Escape(str) + "\"" + rest == EscapeChar(str[0]) + tail;
      EscapeRoundTrip(str[1..], rest);
      EscapeCharRoundTrip(str[0], tail);
      assert [str[0]] + str[1..] == str;
    }
  }

  // ---------------------------------------------------------------------
  // Surrogate pairs

  /** `n` as four lower-case hex digits. */
  function Hex4Text(n: int): (t: string)
    requires 0 <= n < 0x10000
    ensures |t| == 4
  {
    var q1 := n / 16;
    var q2 := q1 / 16;
    [HexDigit(q2 / 16), HexDigit(q2 % 16), HexDigit(q1 % 16), HexDigit(n % 16)]
  }

  lemma Hex4RoundTrip(n: int, tail: string)
    requires 0 <= n < 0x10000
    ensures Hex4(Hex4Text(n) + tail) == Some(n)
  {
    var q1 := n / 16;
    var q2 := q1 / 16;
    var s := Hex4Text(n) + tail;
    HexRoundTrip(q2 / 16);
    HexRoundTrip(q2 % 16);
    HexRoundTrip(q1 % 16);
    HexRoundTrip(n % 16);
    assert s[0] == HexDigit(q2 / 16) && s[1] == HexDigit(q2 % 16);
    assert s[2] == HexDigit(q1 % 16) && s[3] == HexDigit(n % 16);
    HexDigitsValue(n);
  }

  lemma HexDigitsValue(n: int)
    requires 0 <= n < 0x10000
    ensures var q1 := n / 16; var q2 := q1 / 16;
            (q2 / 16) * 4096 + (q2 % 16) * 256 + (q1 % 16) * 16 + n % 16 == n
  {
    var q1 := n / 16;
    var q2 := q1 / 16;
    assert n == q1 * 16 + n % 16;
    assert q1 == q2 * 16 + q1 % 16;
    assert q2 == (q2 / 16) * 16 + q2 % 16;
  }

  /** The `\u` escapes of the UTF-16 surrogate pair of a character outside
      the Basic Multilingual Plane, without the leading backslash. */
  function PairEscape(c: char): (t: string)
    requires c as int >= 0x10000
    ensures |t| == 11
  {
    var v := c as int - 0x10000;
    "u" + Hex4Text(0xD800 + v / 0x400) + "\\u" + Hex4Text(0xDC00 + v % 0x400)
  }

  /** `JSON.parse` reads a surrogate pair escape as the one character the pair
      encodes in UTF-16, for every character outside the Basic Multilingual
      Plane. */
  lemma SurrogatePairRoundTrip(c: char, tail: string)
    requires c as int >= 0x10000
    ensures ParseEscape(PairEscape(c) + tail) == Some((c, 11))
  {
    var v := c as int - 0x10000;
    var hi, lo := 0xD800 + v / 0x400, 0xDC00 + v % 0x400;
    var s := PairEscape(c) + tail;
    assert s[1..] == Hex4Text(hi) + s[5..];
    assert s[7..] == Hex4Text(lo) + tail;
    Hex4RoundTrip(hi, s[5..]);
    Hex4RoundTrip(lo, tail);
    assert s[0] == 'u' && s[5] == '\\' && s[6] == 'u';
    assert 0x10000 + (hi - 0xD800) * 0x400 + (lo - 0xDC00) == c as int;
  }

  lemma SurrogatePairChars(s: string)
    requires s == "\\ud83d\\ude00\"]"
    ensures ParseChars(s) == Some(Parsed("\U{1F600}", "]"))
  {
    var e := s[1..];
    assert Hex4(e[1..]) == Some(0xD83D);
    assert Hex4(e[7..]) == Some(0xDE00);
    assert ParseEscape(e) == Some(('\U{1F600}', 11));
    assert s[12..] == "\"]";
    assert ParseChars("\"]") == Some(Parsed([], "]"));
    EscapedChar(s, '\U{1F600}', 11, "\"]");
    assert ['\U{1F600}'] + [] == "\U{1F600}";
  }

  lemma SurrogatePairElements(s: string)
    requires s == "\"\\ud83d\\ude00\"]"
    ensures ParseElements(s) == Some(Parsed([Str("\U{1F600}")], ""))
  {
    SurrogatePairChars(s[1..]);
    StringValue(s, "\U{1F600}", "]");
    assert SkipWs("]") == "]" && "]"[1..] == "";
  }

  /** A string literal as a value. */
  lemma StringValue(u: string, str: string, rest: string)
    requires u != [] && u[0] == '"' && ParseChars(u[1..]) == Some(Parsed(str, rest))
    ensures ParseValue(u) == Some(Parsed(Str(str), rest))
  {
    assert SkipWs(u) == u;
  }

  /** The frame `["\ud83d\ude00"]`, which `JSON.stringify` never writes but
      `JSON.parse` accepts, reads as an array of the one character U+1F600. */
  lemma SurrogatePairArray(text: string)
    requires text == "[\"\\ud83d\\ude00\"]"
    ensures ParseValue(text) == Some(Parsed(Arr([Str("\U{1F600}")]), ""))
  {
    var s := text[1..];
    SurrogatePairElements(s);
    assert text == "[" + s;
    OneElementArray(s, Str("\U{1F600}"));
  }

  /** An array of one element. */
  lemma OneElementArray(t: string, v: Value)
    requires t != [] && t[0] == '"'
    requires ParseElements(t) == Some(Parsed([v], ""))
    ensures ParseValue("[" + t) == Some(Parsed(Arr([v]), ""))
  {
    var u := "[" + t;
    assert u[1..] == t;
    assert SkipWs(u) == u;
    assert SkipWs(t) == t;
  }

  // ---------------------------------------------------------------------
  // Objects

  lemma {:induction false} BuildObjectDistinct(members: seq<Prop>)
    requires DistinctKeys(members)
    ensures BuildObject(members) == members
  {
    if members != [] {
      var n := |members| - 1;
      var init, last := members[..n], members[n];
      assert init + [last] == members;
      assert DistinctKeys(init);
      BuildObjectDistinct(init);
      NotInKeys(init, last, members);
      BuildObjectSnoc(init, last);
    }
  }

  lemma BuildObjectSnoc(init: seq<Prop>, last: Prop)
    requires BuildObject(init) == init && last.key !in Keys(init)
    ensures BuildObject(init + [last]) == init + [last]
  {
    var members := init + [last];
    assert members[..|members| - 1] == init;
    AssignKeys(init, last.key, last.val);
  }

  lemma NotInKeys(init: seq<Prop>, last: Prop, members: seq<Prop>)
    requires members == init + [last] && DistinctKeys(members)
    ensures last.key !in Keys(init)
  {
    assert forall i :: 0 <= i < |init| ==> init[i].key == members[i].key != members[|init|].key;
  }

  // ---------------------------------------------------------------------
  // Values

  /** Parsing the text of a JSON value gives the value back and stops where
      the text ends. */
  lemma {:induction false} ValueRoundTrip(v: Value, rest: string)
    requires JsonOnly(v) && WellFormed(v) && Boundary(rest)
    ensures ParseValue(Serialize(v) + rest) == Some(Parsed(v, rest))
    decreases v, 2
  {
    match v
    case Null => LiteralRoundTrip(v, rest);
    case Bool(_) => LiteralRoundTrip(v, rest);
    case Num(n) =>
      NumValueRoundTrip(n, rest);
    case Str(str) =>
      StringRoundTrip(str, rest);
    case Bytes(_) =>
    case Arr(items) =>
      ArrayRoundTrip(items, rest);
    case Obj(props) =>
      ObjectRoundTrip(props, rest);
  }

  lemma NumValueRoundTrip(n: int, rest: string)
    requires Boundary(rest)
    ensures ParseValue(Serialize(Num(n)) + rest) == Some(Parsed(Num(n), rest))
  {
    var s := IntToString(n) + rest;
    SerializeStart(Num(n));
    NumberRoundTrip(n, rest);
    assert Serialize(Num(n)) + rest == s;
    assert s[0] == '-' || IsDigit(s[0]);
    ParseValueNumber(s);
  }

  lemma ParseValueNumber(s: string)
    requires s != [] && (s[0] == '-' || IsDigit(s[0]))
    ensures ParseValue(s) == ParseNumber(s)
  {
    var c := s[0];
    assert !IsWhitespace(c);
    assert SkipWs(s) == s;
    assert c != 'n' && c != 't' && c != 'f' && c != '"' && c != '[' && c != '{';
  }

  lemma LiteralRoundTrip(v: Value, rest: string)
    requires v.Null? || v.Bool?
    ensures ParseValue(Serialize(v) + rest) == Some(Parsed(v, rest))
  {
    var word := Serialize(v);
    var s := word + rest;
    assert s[..|word|] == word && s[|word|..] == rest;
  }

  lemma StringRoundTrip(str: string, rest: string)
    ensures ParseValue(Quote(str) + rest) == Some(Parsed(Str(str), rest))
  {
    var s := Quote(str) + rest;
    assert s[0] == '"' && s[1..] == Escape(str) + "\"" + rest;
    EscapeRoundTrip(str, rest);
  }

  // One step of each parser, stated on an arbitrary input so that the round
  // trips below only have to match up the text.

  lemma ParseArrayStep(s: string, items: seq<Value>, rest: string)
    requires |s| >= 2 && s[0] == '[' && s[1] != ']' && !IsWhitespace(s[1])
    requires ParseElements(s[1..]) == Some(Parsed(items, rest))
    ensures ParseValue(s) == Some(Parsed(Arr(items), rest))
  {
    assert SkipWs(s) == s;
  }

  lemma ParseObjectStep(s: string, body: string, members: seq<Prop>, rest: string)
    requires s != [] && s[0] == '{' && s[1..] == body && body != [] && body[0] == '"'
    requires ParseMembers(body) == Some(Parsed(members, rest))
    ensures ParseValue(s) == Some(Parsed(Obj(BuildObject(members)), rest))
  {
    assert SkipWs(s) == s;
  }

  lemma ParseElementsStep(s: string, first: Value, tail: string)
    requires ParseValue(s) == Some(Parsed(first, tail))
    requires tail != [] && (tail[0] == ']' || tail[0] == ',')
    ensures tail[0] == ']' ==> ParseElements(s) == Some(Parsed([first], tail[1..]))
    ensures tail[0] == ',' ==>
              ParseElements(s) ==
                match ParseElements(tail[1..])
                case None => None
                case Some(more) => Some(Parsed([first] + more.value, more.rest))
  {
    assert SkipWs(tail) == tail;
  }

  lemma ParseMembersStep(s: string, key: string, u: string, val: Value, tail: string)
    requires s != [] && s[0] == '"' && ParseChars(s[1..]) == Some(Parsed(key, u))
    requires u != [] && u[0] == ':' && ParseValue(u[1..]) == Some(Parsed(val, tail))
    requires tail != [] && (tail[0] == '}' || tail[0] == ',')
    ensures tail[0] == '}' ==> ParseMembers(s) == Some(Parsed([Prop(key, val)], tail[1..]))
    ensures tail[0] == ',' ==>
              ParseMembers(s) ==
                match ParseMembers(tail[1..])
                case None => None
                case Some(more) => Some(Parsed([Prop(key, val)] + more.value, more.rest))
  {
    assert SkipWs(s) == s && SkipWs(u) == u && SkipWs(tail) == tail;
  }

  lemma {:induction false} ArrayRoundTrip(items: seq<Value>, rest: string)
    requires forall i :: 0 <= i < |items| ==> JsonOnly(items[i]) && WellFormed(items[i])
    requires Boundary(rest)
    ensures ParseValue(Serialize(Arr(items)) + rest) == Some(Parsed(Arr(items), rest))
    decreases items, 1
  {
    var body := SerializeItems(items) + "]" + rest;
    var s := "[" + body;
    Assoc("[", SerializeItems(items) + "]", rest);
    Assoc("[", SerializeItems(items), "]");
    assert Serialize(Arr(items)) + rest == s;
    Cons('[', body);
    if items == [] {
      assert body == "]" + rest;
    } else {
      SerializeStart(items[0]);
      assert body[0] == Serialize(items[0])[0];
      ElementsRoundTrip(items, rest);
      ParseArrayStep(s, items, rest);
    }
  }

  lemma {:induction false} ObjectRoundTrip(props: seq<Prop>, rest: string)
    requires DistinctKeys(props)
    requires forall i :: 0 <= i < |props| ==> JsonOnly(props[i].val) && WellFormed(props[i].val)
    requires Boundary(rest)
    ensures ParseValue(Serialize(Obj(props)) + rest) == Some(Parsed(Obj(props), rest))
    decreases props, 1
  {
    var body := SerializeProps(props) + "}" + rest;
    var s := "{" + body;
    Assoc("{", SerializeProps(props) + "}", rest);
    Assoc("{", SerializeProps(props), "}");
    assert Serialize(Obj(props)) + rest == s;
    Cons('{', body);
    if props == [] {
      assert body == "}" + rest;
    } else {
      assert body[0] == '"';
      MembersRoundTrip(props, rest);
      ParseObjectStep(s, body, props, rest);
      BuildObjectDistinct(props);
    }
  }

  lemma {:induction false} ElementsRoundTrip(items: seq<Value>, rest: string)
    requires items != []
    requires forall i :: 0 <= i < |items| ==> JsonOnly(items[i]) && WellFormed(items[i])
    ensures ParseElements(SerializeItems(items) + "]" + rest) == Some(Parsed(items, rest))
    decreases items, 0
  {
    ValueRoundTrip(items[0], ElementsTail(items, rest));
    if |items| > 1 {
      ElementsRoundTrip(items[1..], rest);
    }
    ElementsStep(items, rest);
  }

  /** The text of elements after the first one. */
  function ElementsTail(items: seq<Value>, rest: string): string
    requires items != []
  {
    if |items| == 1 then "]" + rest else "," + SerializeItems(items[1..]) + "]" + rest
  }

  lemma ElementsText(items: seq<Value>, rest: string)
    requires items != []
    ensures SerializeItems(items) + "]" + rest == Serialize(items[0]) + ElementsTail(items, rest)
    ensures var t := ElementsTail(items, rest);
            t != [] && (t[0] == ']' || t[0] == ',') &&
            (|items| == 1 ==> t[0] == ']' && t[1..] == rest) &&
            (|items| > 1 ==> t[0] == ',' && t[1..] == SerializeItems(items[1..]) + "]" + rest)
  {
    var v := Serialize(items[0]);
    if |items| > 1 {
      var more := SerializeItems(items[1..]);
      Assoc(v + ",", more, "]");
      Assoc(v + ",", more + "]", rest);
      Assoc(v, ",", more + "]" + rest);
      Assoc(",", more, "]");
      Assoc(",", more + "]", rest);
      Cons(',', more + "]" + rest);
    } else {
      Assoc(v, "]", rest);
      Cons(']', rest);
    }
  }

  /** The first element reads back, and so do the others if they do on their own. */
  lemma ElementsStep(items: seq<Value>, rest: string)
    requires items != []
    requires var t := ElementsTail(items, rest);
             ParseValue(Serialize(items[0]) + t) == Some(Parsed(items[0], t))
    requires |items| > 1 ==>
               ParseElements(SerializeItems(items[1..]) + "]" + rest) == Some(Parsed(items[1..], rest))
    ensures ParseElements(SerializeItems(items) + "]" + rest) == Some(Parsed(items, rest))
  {
    var s := SerializeItems(items) + "]" + rest;
    var tail := ElementsTail(items, rest);
    ElementsText(items, rest);
    ParseElementsStep(s, items[0], tail);
    HeadTail(items);
  }

  /** The text of members after the first one. */
  function MembersTail(props: seq<Prop>, rest: string): string
    requires props != []
  {
    if |props| == 1 then "}" + rest else "," + SerializeProps(props[1..]) + "}" + rest
  }

  lemma Cons(c: char, s: string)
    ensures ([c] + s)[0] == c && ([c] + s)[1..] == s
  {
  }

  lemma Assoc(a: string, b: string, c: string)
    ensures a + b + c == a + (b + c)
  {
  }

  lemma MembersTailText(props: seq<Prop>, rest: string)
    requires props != []
    ensures var t := MembersTail(props, rest);
            t != [] && (t[0] == '}' || t[0] == ',') &&
            (|props| == 1 ==> t[0] == '}' && t[1..] == rest) &&
            (|props| > 1 ==> t[0] == ',' && t[1..] == SerializeProps(props[1..]) + "}" + rest)
  {
    if |props| > 1 {
      var more := SerializeProps(props[1..]);
      Assoc(",", more, "}");
      Assoc(",", more + "}", rest);
      Cons(',', more + "}" + rest);
    } else {
      Cons('}', rest);
    }
  }

  lemma MembersConcat(props: seq<Prop>, rest: string)
    requires props != []
    ensures SerializeProps(props) + "}" + rest ==
            Quote(props[0].key) + (":" + Serialize(props[0].val) + MembersTail(props, rest))
  {
    var p := props[0];
    var q, v, t := Quote(p.key), Serialize(p.val), MembersTail(props, rest);
    if |props| == 1 {
      calc {
        SerializeProps(props) + "}" + rest;
        q + ":" + v + "}" + rest;
        { Assoc(q + ":" + v, "}", rest); }
        q + ":" + v + t;
      }
    } else {
      var more := SerializeProps(props[1..]);
      calc {
        SerializeProps(props) + "}" + rest;
        q + ":" + v + "," + more + "}" + rest;
        { Assoc(q + ":" + v + "," + more, "}", rest);
          Assoc(q + ":" + v + ",", more, "}" + rest);
          Assoc(q + ":" + v, ",", more + ("}" + rest));
          Assoc(",", more, "}" + rest); }
        q + ":" + v + t;
      }
    }
    Assoc(q + ":", v, t);
    Assoc(q, ":", v + t);
    Assoc(":", v, t);
  }

  lemma QuoteSplit(key: string, after: string)
    ensures var s := Quote(key) + after;
            s != [] && s[0] == '"' && s[1..] == Escape(key) + "\"" + after
  {
    var s := Quote(key) + after;
    Assoc("\"" + Escape(key), "\"", after);
    Assoc("\"", Escape(key), "\"" + after);
    Assoc(Escape(key), "\"", after);
    assert s == "\"" + (Escape(key) + "\"" + after);
  }

  lemma MembersText(props: seq<Prop>, rest: string)
    requires props != []
    ensures var after := ":" + Serialize(props[0].val) + MembersTail(props, rest);
            var s := SerializeProps(props) + "}" + rest;
            s != [] && s[0] == '"' && s[1..] == Escape(props[0].key) + "\"" + after &&
            after[0] == ':' && after[1..] == Serialize(props[0].val) + MembersTail(props, rest)
  {
    var v, t := Serialize(props[0].val), MembersTail(props, rest);
    MembersConcat(props, rest);
    QuoteSplit(props[0].key, ":" + v + t);
    Assoc(":", v, t);
    Cons(':', v + t);
  }

  lemma {:induction false} MembersRoundTrip(props: seq<Prop>, rest: string)
    requires props != []
    requires forall i :: 0 <= i < |props| ==> JsonOnly(props[i].val) && WellFormed(props[i].val)
    ensures ParseMembers(SerializeProps(props) + "}" + rest) == Some(Parsed(props, rest))
    decreases props, 0
  {
    ValueRoundTrip(props[0].val, MembersTail(props, rest));
    if |props| > 1 {
      MembersRoundTrip(props[1..], rest);
    }
    MembersStep(props, rest);
  }

  /** The first member reads back, and so do the others if they do on their own. */
  lemma MembersStep(props: seq<Prop>, rest: string)
    requires props != []
    requires var t := MembersTail(props, rest);
             ParseValue(Serialize(props[0].val) + t) == Some(Parsed(props[0].val, t))
    requires |props| > 1 ==>
               ParseMembers(SerializeProps(props[1..]) + "}" + rest) == Some(Parsed(props[1..], rest))
    ensures ParseMembers(SerializeProps(props) + "}" + rest) == Some(Parsed(props, rest))
  {
    var p := props[0];
    var tail := MembersTail(props, rest);
    var after := ":" + Serialize(p.val) + tail;
    var s := SerializeProps(props) + "}" + rest;
    MembersText(props, rest);
    EscapeRoundTrip(p.key, after);
    ParseMembersStep(s, p.key, after, p.val, tail);
    MembersTailText(props, rest);
    HeadTail(props);
  }

  lemma HeadTail<T>(s: seq<T>)
    requires s != []
    ensures [s[0]] + s[1..] == s
    ensures |s| == 1 ==> [s[0]] == s
  {
  }

  /** `JSON.parse(JSON.stringify(v, UInt8ArrayFormatter))` is `v` with every
      `Uint8Array` turned into the array of its bytes. */
  lemma ParseStringify(v: Value)
    requires WellFormed(v)
    ensures Parse(Stringify(v)) == Some(Replace(v))
  {
    ReplaceIsJson(v);
    ValueRoundTrip(Replace(v), []);
    assert Stringify(v) + [] == Stringify(v);
  }
}
