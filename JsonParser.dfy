/** `JSON.parse` for the text the batcher writes: whitespace, literals,
    integers, strings with every JSON escape, arrays and objects. Each parser
    takes the remaining input and returns the value and what follows it. */
module JsonParser {
  import opened Values
  import opened Json

  datatype Parsed<T> = Parsed(value: T, rest: string)

  predicate IsWhitespace(c: char) {
    c == ' ' || c == '\t' || c == '\n' || c == '\r'
  }

  function SkipWs(s: string): (t: string)
    ensures |t| <= |s|
    ensures t == [] || !IsWhitespace(t[0])
  {
    if s != [] && IsWhitespace(s[0]) then SkipWs(s[1..]) else s
  }

  // ---------------------------------------------------------------------
  // Numbers

  function DigitSpan(s: string): (n: nat)
    ensures n <= |s|
    ensures forall i :: 0 <= i < n ==> IsDigit(s[i])
  {
    if s != [] && IsDigit(s[0]) then 1 + DigitSpan(s[1..]) else 0
  }

  /** An integer literal `-?(0|[1-9][0-9]*)`. A fraction or an exponent is
      refused rather than misread. */
  function ParseNumber(s: string): (r: Option<Parsed<Value>>)
    ensures r.Some? ==> |r.value.rest| < |s|
  {
    var negative := s != [] && s[0] == '-';
    var t := if negative then s[1..] else s;
    if t == [] || !IsDigit(t[0]) then None
    else
      var len := if t[0] == '0' then 1 else DigitSpan(t);
      var rest := t[len..];
      if rest != [] && (rest[0] == '.' || rest[0] == 'e' || rest[0] == 'E') then None
      else
        var m: int := DigitsValue(t[..len]);
        Some(Parsed(Num(if negative then -m else m), rest))
  }

  // ---------------------------------------------------------------------
  // Strings

  function HexValue(c: char): (r: Option<nat>)
    ensures r.Some? ==> r.value < 16
  {
    if '0' <= c <= '9' then Some(c as int - '0' as int)
    else if 'a' <= c <= 'f' then Some(c as int - 'a' as int + 10)
    else if 'A' <= c <= 'F' then Some(c as int - 'A' as int + 10)
    else None
  }

  /** The number written by the four hex digits that start `s`. */
  function Hex4(s: string): (r: Option<nat>)
    ensures r.Some? ==> |s| >= 4 && r.value < 0x10000
  {
    if |s| < 4 then None
    else
      var h1, h2, h3, h4 := HexValue(s[0]), HexValue(s[1]), HexValue(s[2]), HexValue(s[3]);
      if h1.Some? && h2.Some? && h3.Some? && h4.Some? then
        Some(h1.value * 4096 + h2.value * 256 + h3.value * 16 + h4.value)
      else None
  }

  /** The character of the escape that starts `s` (after the backslash) and
      its length. A `\u` escape of a high surrogate followed by a `\u` escape
      of a low surrogate is one character outside the Basic Multilingual
      Plane, read from the pair as UTF-16 does; a surrogate half on its own
      is refused, since a `string` cannot hold it. */
  function ParseEscape(s: string): (r: Option<(char, nat)>)
    ensures r.Some? ==> 1 <= r.value.1 <= |s|
  {
    if s == [] then None
    else if s[0] == '"' then Some(('"', 1))
    else if s[0] == '\\' then Some(('\\', 1))
    else if s[0] == '/' then Some(('/', 1))
    else if s[0] == 'b' then Some(((8 as char), 1))
    else if s[0] == 'f' then Some(((12 as char), 1))
    else if s[0] == 'n' then Some(('\n', 1))
    else if s[0] == 'r' then Some(('\r', 1))
    else if s[0] == 't' then Some(('\t', 1))
    else if s[0] == 'u' then
      match Hex4(s[1..])
      case None => None
      case Some(n) =>
        if n < 0xD800 || 0xE000 <= n then Some(((n as char), 5))
        else if 0xDC00 <= n || |s| < 7 || s[5] != '\\' || s[6] != 'u' then None
        else
          match Hex4(s[7..])
          case None => None
          case Some(lo) =>
            if 0xDC00 <= lo < 0xE000 then
              Some(((0x10000 + (n - 0xD800) * 0x400 + (lo - 0xDC00)) as char, 11))
            else None
    else None
  }

  /** The characters of a string literal up to its closing quote. */
  function ParseChars(s: string): (r: Option<Parsed<string>>)
    ensures r.Some? ==> |r.value.rest| < |s|
  {
    if s == [] then None
    else if s[0] == '"' then Some(Parsed([], s[1..]))
    else if s[0] == '\\' then
      match ParseEscape(s[1..])
      case None => None
      case Some((c, k)) =>
        match ParseChars(s[1 + k..])
        case None => None
        case Some(p) => Some(Parsed([c] + p.value, p.rest))
    else if (s[0] as int) < 0x20 then None
    else
      match ParseChars(s[1..])
      case None => None
      case Some(p) => Some(Parsed([s[0]] + p.value, p.rest))
  }

  // ---------------------------------------------------------------------
  // Values

  function ParseLiteral(s: string, word: string, v: Value): (r: Option<Parsed<Value>>)
    requires |word| > 0
    ensures r.Some? ==> |r.value.rest| < |s|
  {
    if |s| >= |word| && s[..|word|] == word then Some(Parsed(v, s[|word|..])) else None
  }

  function ParseValue(s: string): (r: Option<Parsed<Value>>)
    ensures r.Some? ==> |r.value.rest| < |s|
    decreases |s|, 1
  {
    var t := SkipWs(s);
    if t == [] then None
    else if t[0] == 'n' then ParseLiteral(t, "null", Null)
    else if t[0] == 't' then ParseLiteral(t, "true", Bool(true))
    else if t[0] == 'f' then ParseLiteral(t, "false", Bool(false))
    else if t[0] == '"' then
      match ParseChars(t[1..])
      case None => None
      case Some(p) => Some(Parsed(Str(p.value), p.rest))
    else if t[0] == '[' then ParseArray(t[1..])
    else if t[0] == '{' then ParseObject(t[1..])
    else if t[0] == '-' || IsDigit(t[0]) then ParseNumber(t)
    else None
  }

  /** The rest of an array after its `[`. */
  function ParseArray(s: string): (r: Option<Parsed<Value>>)
    ensures r.Some? ==> |r.value.rest| < |s|
    decreases |s|, 3
  {
    var t := SkipWs(s);
    if t != [] && t[0] == ']' then Some(Parsed(Arr([]), t[1..]))
    else
      match ParseElements(t)
      case None => None
      case Some(p) => Some(Parsed(Arr(p.value), p.rest))
  }

  /** One or more elements separated by commas, then the closing `]`. */
  function ParseElements(s: string): (r: Option<Parsed<seq<Value>>>)
    ensures r.Some? ==> |r.value.rest| < |s|
    decreases |s|, 2
  {
    match ParseValue(s)
    case None => None
    case Some(first) =>
      var t := SkipWs(first.rest);
      if t != [] && t[0] == ']' then Some(Parsed([first.value], t[1..]))
      else if t != [] && t[0] == ',' then
        match ParseElements(t[1..])
        case None => None
        case Some(more) => Some(Parsed([first.value] + more.value, more.rest))
      else None
  }

  /** The rest of an object after its `{`. */
  function ParseObject(s: string): (r: Option<Parsed<Value>>)
    ensures r.Some? ==> |r.value.rest| < |s|
    decreases |s|, 3
  {
    var t := SkipWs(s);
    if t != [] && t[0] == '}' then Some(Parsed(Obj([]), t[1..]))
    else
      match ParseMembers(t)
      case None => None
      case Some(p) => Some(Parsed(Obj(BuildObject(p.value)), p.rest))
  }

  /** One or more `"key":value` members separated by commas, then the `}`. */
  function ParseMembers(s: string): (r: Option<Parsed<seq<Prop>>>)
    ensures r.Some? ==> |r.value.rest| < |s|
    decreases |s|, 2
  {
    var t := SkipWs(s);
    if t == [] || t[0] != '"' then None
    else
      match ParseChars(t[1..])
      case None => None
      case Some(key) =>
        var u := SkipWs(key.rest);
        if u == [] || u[0] != ':' then None
        else
          match ParseValue(u[1..])
          case None => None
          case Some(val) =>
            var w := SkipWs(val.rest);
            var member := Prop(key.value, val.value);
            if w != [] && w[0] == '}' then Some(Parsed([member], w[1..]))
            else if w != [] && w[0] == ',' then
              match ParseMembers(w[1..])
              case None => None
              case Some(more) => Some(Parsed([member] + more.value, more.rest))
            else None
  }

  /** The object `JSON.parse` builds from its members in order: a repeated key
      keeps its first place and takes its last value. */
  function BuildObject(members: seq<Prop>): seq<Prop> {
    if members == [] then []
    else
      var last := members[|members| - 1];
      Assign(BuildObject(members[..|members| - 1]), last.key, last.val)
  }

  /** `JSON.parse(text)`; `None` is the `SyntaxError` it throws. */
  function Parse(text: string): Option<Value> {
    match ParseValue(text)
    case None => None
    case Some(p) => if SkipWs(p.rest) == [] then Some(p.value) else None
  }
}
