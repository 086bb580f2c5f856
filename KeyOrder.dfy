/** The order in which `Object.keys` lists an ordinary object's own string
    keys: array indices first, in ascending numeric order, then every other
    key in the order it was created. */
module KeyOrder {
  import opened Values

  predicate Distinct(s: seq<string>) {
    forall i, j :: 0 <= i < j < |s| ==> s[i] != s[j]
  }

  /** A canonical array index: the decimal text, without leading zeros, of an
      integer below 2^32 - 1. */
  predicate IsArrayIndex(k: string) {
    |k| > 0 && AllDigits(k) && (k[0] != '0' || |k| == 1) && DigitsValue(k) < 0xFFFF_FFFF
  }

  /** The number an array-index key stands for. */
  function IndexValue(k: string): nat {
    if AllDigits(k) then DigitsValue(k) else 0
  }

  /** The array-index keys of `order`, in their creation order. */
  function Indices(order: seq<string>): (r: seq<string>)
    ensures forall k :: k in r <==> k in order && IsArrayIndex(k)
    ensures forall i :: 0 <= i < |r| ==> IsArrayIndex(r[i])
    ensures Distinct(order) ==> Distinct(r)
  {
    if order == [] then []
    else if IsArrayIndex(order[0]) then [order[0]] + Indices(order[1..])
    else Indices(order[1..])
  }

  /** The other keys of `order`, in their creation order. */
  function Names(order: seq<string>): (r: seq<string>)
    ensures forall k :: k in r <==> k in order && !IsArrayIndex(k)
    ensures Distinct(order) ==> Distinct(r)
  {
    if order == [] then []
    else if IsArrayIndex(order[0]) then Names(order[1..])
    else [order[0]] + Names(order[1..])
  }

  predicate Ascending(s: seq<string>) {
    forall i, j :: 0 <= i < j < |s| ==> IndexValue(s[i]) <= IndexValue(s[j])
  }

  /** `k` placed in the ascending list `s` before the first larger index. */
  function Insert(k: string, s: seq<string>): (r: seq<string>)
    ensures |r| == |s| + 1
    ensures forall x :: x in r <==> x == k || x in s
  {
    if s == [] || IndexValue(k) <= IndexValue(s[0]) then [k] + s
    else [s[0]] + Insert(k, s[1..])
  }

  lemma {:induction false} InsertAscending(k: string, s: seq<string>)
    requires Ascending(s)
    ensures Ascending(Insert(k, s))
  {
    if s != [] && IndexValue(k) > IndexValue(s[0]) {
      var r := Insert(k, s[1..]);
      InsertAscending(k, s[1..]);
      forall x | x in r
        ensures IndexValue(s[0]) <= IndexValue(x)
      {
        if x != k {
          var j :| 0 <= j < |s[1..]| && s[1..][j] == x;
          assert s[j + 1] == x;
        }
      }
      var full := [s[0]] + r;
      forall i, j | 0 <= i < j < |full|
        ensures IndexValue(full[i]) <= IndexValue(full[j])
      {
        if i > 0 {
          assert full[i] == r[i - 1] && full[j] == r[j - 1];
        } else {
          assert full[j] == r[j - 1] && full[j] in r;
        }
      }
    }
  }

  lemma {:induction false} InsertDistinct(k: string, s: seq<string>)
    requires Distinct(s) && k !in s
    ensures Distinct(Insert(k, s))
  {
    if s != [] && IndexValue(k) > IndexValue(s[0]) {
      var r := Insert(k, s[1..]);
      InsertDistinct(k, s[1..]);
      HeadNotInTail(s);
      var full := [s[0]] + r;
      forall i, j | 0 <= i < j < |full|
        ensures full[i] != full[j]
      {
        if i > 0 {
          assert full[i] == r[i - 1] && full[j] == r[j - 1];
        } else {
          assert full[j] == r[j - 1] && full[j] in r;
        }
      }
    }
  }

  lemma HeadNotInTail(s: seq<string>)
    requires s != [] && Distinct(s)
    ensures s[0] !in s[1..] && Distinct(s[1..])
  {
    assert forall j :: 0 <= j < |s| - 1 ==> s[1..][j] == s[j + 1];
  }

  function Sort(s: seq<string>): (r: seq<string>)
    ensures |r| == |s|
    ensures forall x :: x in r <==> x in s
  {
    if s == [] then [] else Insert(s[0], Sort(s[1..]))
  }

  /** Sorting leaves the keys ascending and lists each of them once. */
  lemma {:induction false} SortSorts(s: seq<string>)
    ensures Ascending(Sort(s))
    ensures Distinct(s) ==> Distinct(Sort(s))
  {
    if s != [] {
      SortSorts(s[1..]);
      InsertAscending(s[0], Sort(s[1..]));
      if Distinct(s) {
        HeadNotInTail(s);
        InsertDistinct(s[0], Sort(s[1..]));
      }
    }
  }

  /** `Object.keys` of an object whose keys were created in `order`. */
  function EnumerationOrder(order: seq<string>): seq<string> {
    Sort(Indices(order)) + Names(order)
  }

  /** Every key is listed exactly once, array indices ascending and ahead of
      all other keys. */
  lemma EnumerationOrderLists(order: seq<string>)
    requires Distinct(order)
    ensures var e := EnumerationOrder(order);
            Distinct(e) && (forall k :: k in e <==> k in order) &&
            (forall i, j :: 0 <= i < j < |e| && IsArrayIndex(e[j]) ==> IsArrayIndex(e[i])) &&
            (forall i, j :: 0 <= i < j < |e| && IsArrayIndex(e[j]) ==> IndexValue(e[i]) <= IndexValue(e[j]))
  {
    var a, b := Sort(Indices(order)), Names(order);
    var e := a + b;
    SortSorts(Indices(order));
    assert forall k :: k in a ==> IsArrayIndex(k);
    assert forall k :: k in b ==> !IsArrayIndex(k);
    assert forall i :: 0 <= i < |a| ==> e[i] == a[i];
    assert forall i :: |a| <= i < |e| ==> e[i] == b[i - |a|];
    forall i, j | 0 <= i < j < |e|
      ensures e[i] != e[j]
    {
      if j < |a| {
      } else if i >= |a| {
      } else {
        assert e[i] in a && e[j] in b;
      }
    }
    forall i, j | 0 <= i < j < |e| && IsArrayIndex(e[j])
      ensures IsArrayIndex(e[i]) && IndexValue(e[i]) <= IndexValue(e[j])
    {
      assert e[j] !in b;
      assert j < |a|;
    }
  }

  /** Without array-index keys, `Object.keys` is creation order. */
  lemma {:induction false} NoIndicesCreationOrder(order: seq<string>)
    requires forall i :: 0 <= i < |order| ==> !IsArrayIndex(order[i])
    ensures EnumerationOrder(order) == order
  {
    NamesAll(order);
  }

  lemma {:induction false} NamesAll(order: seq<string>)
    requires forall i :: 0 <= i < |order| ==> !IsArrayIndex(order[i])
    ensures Names(order) == order && Indices(order) == []
  {
    if order != [] {
      NamesAll(order[1..]);
      assert [order[0]] + order[1..] == order;
    }
  }
}
