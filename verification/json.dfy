/** The parsed JSON tree (serde_json's `Value`), as the conversion receives it. */
module Json {
  import opened Wrappers
  import opened Numbers

  /** The range of serde_json's negative integers: it stores every
      non-negative integer as a `PosInt`. */
  type Negative = x: int | I64_MIN <= x < 0 witness -1

  /** serde_json's number representation: a non-negative integer, a negative
      integer, or a float. Which one a number is depends on how it was
      written (`3` vs `3.0` vs `3e0`), not on its mathematical value. */
  datatype Number =
    | PosInt(u: U64)
    | NegInt(i: Negative)
    | Float(f: F64)

  /** A JSON value. An object is its key/value pairs in iteration order. */
  datatype Value =
    | Null
    | Bool(b: bool)
    | Num(n: Number)
    | Str(s: string)
    | Arr(items: seq<Value>)
    | Obj(fields: seq<(string, Value)>)

  /** The first value stored under `key` in `fields`. */
  function Lookup(fields: seq<(string, Value)>, key: string): (r: Option<Value>)
    ensures r.Some? <==> exists i :: 0 <= i < |fields| && fields[i].0 == key
    ensures r.Some? ==> exists i :: 0 <= i < |fields| && fields[i] == (key, r.value)
  {
    if fields == [] then None
    else if fields[0].0 == key then Some(fields[0].1)
    else Lookup(fields[1..], key)
  }

  /** `Value::get(key)`: the field `key` of an object, and nothing for every
      other kind of value. */
  function Get(v: Value, key: string): (r: Option<Value>)
    ensures r.Some? ==> v.Obj? && r.value < v
    ensures v.Obj? ==> r == Lookup(v.fields, key)
  {
    match v
    case Obj(fields) => Lookup(fields, key)
    case _ => None
  }

  /** The keys of an object's fields, in iteration order. */
  function Keys(fields: seq<(string, Value)>): (ks: seq<string>)
    ensures |ks| == |fields|
    ensures forall i :: 0 <= i < |fields| ==> ks[i] == fields[i].0
  {
    if fields == [] then [] else [fields[0].0] + Keys(fields[1..])
  }

  predicate Distinct<T(==)>(s: seq<T>) {
    forall i, j :: 0 <= i < j < |s| ==> s[i] != s[j]
  }

  /** What serde_json's `Map` guarantees: no key occurs twice in an object,
      at any depth. */
  predicate WellFormed(v: Value) {
    match v
    case Arr(items) => forall i :: 0 <= i < |items| ==> WellFormed(items[i])
    case Obj(fields) =>
      && Distinct(Keys(fields))
      && forall i :: 0 <= i < |fields| ==> WellFormed(fields[i].1)
    case _ => true
  }

  /** A lookup in a concatenation looks in the first part, then the second. */
  lemma {:induction false} LookupAppend(f: seq<(string, Value)>, g: seq<(string, Value)>, key: string)
    ensures Lookup(f + g, key) == if Lookup(f, key).Some? then Lookup(f, key) else Lookup(g, key)
    decreases |f|
  {
    if f == [] {
      assert f + g == g;
    } else {
      assert (f + g)[0] == f[0];
      assert (f + g)[1..] == f[1..] + g;
      LookupAppend(f[1..], g, key);
    }
  }

  /** Fields of a well-formed object are well-formed. */
  lemma GetWellFormed(v: Value, key: string)
    requires WellFormed(v) && Get(v, key).Some?
    ensures WellFormed(Get(v, key).value)
  {
    var i :| 0 <= i < |v.fields| && v.fields[i] == (key, Get(v, key).value);
  }
}
