/** The JavaScript values that travel on the message bus, with the few
    language operations both stages rely on: truthiness, reading and
    assigning an object property, turning a value into a property key, and
    strict equality. */
module Values {

  /** One byte of a `Uint8Array` or a `Buffer`. */
  type byte = b: int | 0 <= b < 256

  datatype Option<T> = None | Some(value: T)

  /** The exceptions the two stages can raise. */
  datatype JsError = Error(message: string) | TypeError | SyntaxError

  datatype Result<T> = Ok(value: T) | Err(error: JsError)

  /** A JavaScript value. `Obj` keeps its own properties in enumeration
      order; `Bytes` is a `Uint8Array`. `undefined` is never stored: an
      absent property is `None` where it is read. */
  datatype Value =
    | Null
    | Bool(b: bool)
    | Num(n: int)
    | Str(s: string)
    | Arr(items: seq<Value>)
    | Obj(props: seq<Prop>)
    | Bytes(data: seq<byte>)

  datatype Prop = Prop(key: string, val: Value)

  /** JavaScript truthiness. */
  predicate Truthy(v: Value) {
    match v
    case Null => false
    case Bool(b) => b
    case Num(n) => n != 0
    case Str(s) => s != ""
    case _ => true
  }

  /** A property read that yields a truthy value (`undefined` is falsy). */
  predicate Present(o: Option<Value>) {
    o.Some? && Truthy(o.value)
  }

  function Keys(props: seq<Prop>): (ks: seq<string>)
    ensures |ks| == |props|
    ensures forall i :: 0 <= i < |props| ==> ks[i] == props[i].key
  {
    if props == [] then [] else [props[0].key] + Keys(props[1..])
  }

  /** The value of own property `key`, or `None` (undefined). */
  function Lookup(props: seq<Prop>, key: string): (r: Option<Value>)
    ensures r.None? <==> key !in Keys(props)
    ensures r.Some? ==> exists i :: 0 <= i < |props| && props[i] == Prop(key, r.value)
  {
    if props == [] then None
    else if props[0].key == key then Some(props[0].val)
    else Lookup(props[1..], key)
  }

  /** `v[key]` for the keys the two stages read; only objects carry them. */
  function Get(v: Value, key: string): (r: Option<Value>)
    ensures r.Some? ==> v.Obj?
  {
    if v.Obj? then Lookup(v.props, key) else None
  }

  /** `object[key] = val`: an existing property keeps its place and takes the
      new value, a new property is added last. */
  function Assign(props: seq<Prop>, key: string, val: Value): (r: seq<Prop>)
  {
    if props == [] then [Prop(key, val)]
    else if props[0].key == key then [Prop(key, val)] + props[1..]
    else [props[0]] + Assign(props[1..], key, val)
  }

  /** After the assignment the key reads the new value and every other key
      reads what it did before. */
  lemma {:induction false} LookupAssign(props: seq<Prop>, key: string, val: Value, k: string)
    ensures Lookup(Assign(props, key, val), k) == if k == key then Some(val) else Lookup(props, k)
  {
    if props != [] {
      if props[0].key == key {
        LookupCons(Prop(key, val), props[1..]);
      } else {
        LookupAssign(props[1..], key, val, k);
        LookupCons(props[0], Assign(props[1..], key, val));
      }
    }
  }

  lemma LookupCons(p: Prop, rest: seq<Prop>)
    ensures forall k :: Lookup([p] + rest, k) == if p.key == k then Some(p.val) else Lookup(rest, k)
  {
    assert ([p] + rest)[1..] == rest;
  }

  /** Assignment keeps every existing key in place and appends only a new one. */
  lemma {:induction false} AssignKeys(props: seq<Prop>, key: string, val: Value)
    ensures key in Keys(props) ==> Keys(Assign(props, key, val)) == Keys(props)
    ensures key !in Keys(props) ==> Assign(props, key, val) == props + [Prop(key, val)]
  {
    if props != [] {
      var head, rest := props[0], props[1..];
      assert props == [head] + rest;
      KeysCons(head, rest);
      if head.key == key {
        KeysCons(Prop(key, val), rest);
      } else {
        AssignKeys(rest, key, val);
        var tail := Assign(rest, key, val);
        assert Assign(props, key, val) == [head] + tail;
        KeysCons(head, tail);
        if key !in Keys(props) {
          assert [head] + (rest + [Prop(key, val)]) == props + [Prop(key, val)];
        }
      }
    }
  }

  lemma KeysCons(p: Prop, rest: seq<Prop>)
    ensures Keys([p] + rest) == [p.key] + Keys(rest)
  {
    assert ([p] + rest)[1..] == rest;
  }

  /** Assigning the value a property already holds changes nothing. */
  lemma {:induction false} AssignSame(props: seq<Prop>, key: string, val: Value)
    requires Lookup(props, key) == Some(val)
    ensures Assign(props, key, val) == props
  {
    if props != [] {
      if props[0].key == key {
        assert props[0] == Prop(key, val);
        assert [Prop(key, val)] + props[1..] == props;
      } else {
        AssignSame(props[1..], key, val);
        assert [props[0]] + props[1..] == props;
      }
    }
  }

  /** No two own properties of an object share a key. */
  predicate DistinctKeys(props: seq<Prop>) {
    forall i, j :: 0 <= i < j < |props| ==> props[i].key != props[j].key
  }

  /** Every object inside `v` has distinct keys, as every JavaScript object does. */
  predicate WellFormed(v: Value)
    decreases v
  {
    match v
    case Arr(items) => forall i :: 0 <= i < |items| ==> WellFormed(items[i])
    case Obj(props) =>
      DistinctKeys(props) && forall i :: 0 <= i < |props| ==> WellFormed(props[i].val)
    case _ => true
  }

  /** `v` holds no `Uint8Array`, so it is plain JSON data. */
  predicate JsonOnly(v: Value)
    decreases v
  {
    match v
    case Arr(items) => forall i :: 0 <= i < |items| ==> JsonOnly(items[i])
    case Obj(props) => forall i :: 0 <= i < |props| ==> JsonOnly(props[i].val)
    case Bytes(_) => false
    case _ => true
  }

  // ---------------------------------------------------------------------
  // Decimal text of integers (Number.prototype.toString for integers)

  function DigitChar(d: int): (c: char)
    requires 0 <= d < 10
    ensures '0' <= c <= '9' && c as int - '0' as int == d
  {
    ('0' as int + d) as char
  }

  predicate IsDigit(c: char) {
    '0' <= c <= '9'
  }

  function NatToString(n: nat): (s: string)
    ensures |s| > 0
    ensures forall i :: 0 <= i < |s| ==> IsDigit(s[i])
    ensures s[0] == '0' ==> n == 0 && |s| == 1
  {
    if n < 10 then [DigitChar(n)] else NatToString(n / 10) + [DigitChar(n % 10)]
  }

  function IntToString(n: int): (s: string)
    ensures |s| > 0
  {
    if n < 0 then "-" + NatToString(-n) else NatToString(n)
  }

  predicate AllDigits(s: string) {
    forall i :: 0 <= i < |s| ==> IsDigit(s[i])
  }

  /** The number a string of decimal digits spells. */
  function DigitsValue(ds: string): nat
    requires AllDigits(ds)
  {
    if ds == [] then 0
    else
      assert IsDigit(ds[|ds| - 1]);
      DigitsValue(ds[..|ds| - 1]) * 10 + (ds[|ds| - 1] as int - '0' as int)
  }

  /** StringToNumber for the texts met here: the empty string is 0, decimal
      digits with an optional `-` are that integer, and any other text is
      NaN (`None`). */
  function StringToNumber(s: string): Option<int> {
    if s == [] then Some(0)
    else if s[0] == '-' && |s| > 1 && AllDigits(s[1..]) then
      var m: int := DigitsValue(s[1..]);
      Some(-m)
    else if AllDigits(s) then Some(DigitsValue(s))
    else None
  }

  /** ToNumber; `None` is NaN. Compound values go through their string form. */
  function ToNumber(v: Value): Option<int> {
    match v
    case Null => Some(0)
    case Bool(b) => Some(if b then 1 else 0)
    case Num(n) => Some(n)
    case _ => StringToNumber(ToKey(v))
  }

  /** ToUint8: the byte a `Uint8Array` element assignment stores. */
  function ToUint8(v: Value): (b: byte) {
    match ToNumber(v)
    case None => 0
    case Some(n) => n % 256
  }

  /** Whether `String.prototype.indexOf` finds `needle` in `hay`. */
  predicate Contains(hay: string, needle: string)
    decreases |hay|
  {
    if |hay| < |needle| then false
    else hay[..|needle|] == needle || Contains(hay[1..], needle)
  }

  // ---------------------------------------------------------------------
  // Property keys and strict equality

  /** The names an empty object literal `{}` already answers to through
      `Object.prototype`, so that `name in {}` holds. */
  const ObjectPrototypeKeys: set<string> :=
    {"constructor", "__defineGetter__", "__defineSetter__", "hasOwnProperty",
     "__lookupGetter__", "__lookupSetter__", "isPrototypeOf",
     "propertyIsEnumerable", "toString", "valueOf", "__proto__", "toLocaleString"}

  /** No inherited name starts with a digit, so a key like a MAC address
      never answers through `Object.prototype`. */
  lemma DigitKeyNotInherited(k: string)
    requires |k| > 0 && IsDigit(k[0])
    ensures k !in ObjectPrototypeKeys
  {
    forall p | p in ObjectPrototypeKeys
      ensures |p| > 0 && !IsDigit(p[0])
    {
    }
  }

  /** Every inherited name has at least seven characters. */
  lemma ShortKeyNotInherited(k: string)
    requires |k| < 7
    ensures k !in ObjectPrototypeKeys
  {
    forall p | p in ObjectPrototypeKeys
      ensures |p| >= 7
    {
    }
  }

  /** The key an absent property is read under is not inherited. */
  lemma UndefinedNotInherited()
    ensures "undefined" !in ObjectPrototypeKeys
  {
    forall p | p in ObjectPrototypeKeys && |p| == 9
      ensures p[0] != 'u'
    {
    }
  }

  /** ToPropertyKey: the string a value becomes when used as a property name. */
  function ToKey(v: Value): string
    decreases v, 1
  {
    match v
    case Null => "null"
    case Bool(b) => if b then "true" else "false"
    case Num(n) => IntToString(n)
    case Str(s) => s
    case Arr(items) => JoinKeys(items)
    case Obj(_) => "[object Object]"
    case Bytes(data) => JoinBytes(data)
  }

  /** `Array.prototype.join(",")`: null elements print as the empty string. */
  function JoinKeys(items: seq<Value>): string
    decreases items, 0
  {
    if items == [] then ""
    else
      var first := if items[0].Null? then "" else ToKey(items[0]);
      if |items| == 1 then first else first + "," + JoinKeys(items[1..])
  }

  function JoinBytes(data: seq<byte>): string {
    if data == [] then ""
    else if |data| == 1 then NatToString(data[0])
    else NatToString(data[0]) + "," + JoinBytes(data[1..])
  }

  /** The key a property read `o[x]` uses when `x` may be undefined. */
  function KeyOf(x: Option<Value>): string {
    if x.None? then "undefined" else ToKey(x.value)
  }

  /** `a === b`. Arrays, objects and typed arrays compare by reference; a
      value from the configuration is never the very object a message holds,
      so two of them are never strictly equal here. */
  predicate StrictEquals(a: Value, b: Value) {
    match (a, b)
    case (Null, Null) => true
    case (Bool(x), Bool(y)) => x == y
    case (Num(x), Num(y)) => x == y
    case (Str(x), Str(y)) => x == y
    case _ => false
  }
}
