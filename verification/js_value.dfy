/**
 The slice of JavaScript value semantics that the live-data path relies on:
 the values `JSON.parse` can produce (plus `undefined`, which a missing
 property read yields), the nullish test behind `??` and `?.`, truthiness,
 own-property reads, and object spread `{ ...v }`.
 */
module JsValue {

  datatype Option<+T> = None | Some(value: T)

  /** A JavaScript value. Numbers are kept as reals: the code only compares
      and copies them, it never computes with them. */
  datatype Value =
    | Undefined
    | Null
    | Bool(b: bool)
    | Num(n: real)
    | Str(s: string)
    | Arr(items: seq<Value>)
    | Obj(fields: map<string, Value>)

  /** A plain object's own properties, as a record produced by normalisation. */
  type Record = map<string, Value>

  /** `null` and `undefined` are the two values `??` and `?.` treat as missing. */
  predicate IsNullish(v: Value) {
    v.Undefined? || v.Null?
  }

  /** JavaScript truthiness (`if (v)`, `!v`, `filter(r => r.f)`). */
  predicate Truthy(v: Value) {
    match v
    case Undefined => false
    case Null => false
    case Bool(b) => b
    case Num(n) => n != 0.0
    case Str(s) => s != ""
    case Arr(_) => true
    case Obj(_) => true
  }

  /** `Math.min(a, b)` on integers. */
  function Min(a: int, b: int): int {
    if a <= b then a else b
  }

  /** `a ?? b` */
  function Coalesce(a: Value, b: Value): Value {
    if IsNullish(a) then b else a
  }

  function DigitChar(d: nat): (c: char)
    requires d < 10
    ensures '0' <= c <= '9'
  {
    "0123456789"[d]
  }

  predicate IsIndexKey(k: string) {
    |k| >= 1 && forall c <- k :: '0' <= c <= '9'
  }

  /** The decimal spelling of an array or string index, used as a property key. */
  function IndexKey(n: nat): (k: string)
    ensures IsIndexKey(k)
    decreases n
  {
    if n < 10 then [DigitChar(n)] else IndexKey(n / 10) + [DigitChar(n % 10)]
  }

  /** The own enumerable properties `"0"`, `"1"`, ... of an array or string. */
  function IndexedEntries(items: seq<Value>): (m: map<string, Value>)
    ensures forall k <- m.Keys :: IsIndexKey(k)
    decreases |items|
  {
    if items == [] then map[]
    else IndexedEntries(items[..|items| - 1])[IndexKey(|items| - 1) := items[|items| - 1]]
  }

  /** The characters of a string, each as a one-character string value. */
  function CharValues(s: string): (r: seq<Value>)
    ensures |r| == |s|
    ensures forall i :: 0 <= i < |s| ==> r[i] == Str([s[i]])
  {
    seq(|s|, i requires 0 <= i < |s| => Str([s[i]]))
  }

  /** The own enumerable properties that `{ ...v }` copies: an object's fields,
      the indexed entries of an array or string, nothing for `null`,
      `undefined`, booleans and numbers. */
  function Spread(v: Value): (m: map<string, Value>)
    ensures v.Obj? ==> m == v.fields
    ensures !v.Obj? ==> forall k <- m.Keys :: IsIndexKey(k)
    ensures !(v.Obj? || v.Arr? || v.Str?) ==> m == map[]
  {
    match v
    case Obj(fields) => fields
    case Arr(items) => IndexedEntries(items)
    case Str(s) => IndexedEntries(CharValues(s))
    case _ => map[]
  }

  /** `v.key` on a value that is not nullish (reading a property of `null`
      or `undefined` throws a TypeError; callers deal with that case):
      the own property if there is one, `undefined` otherwise. */
  function Get(v: Value, key: string): Value
    requires !IsNullish(v)
  {
    var own := Spread(v);
    if key in own then own[key] else Undefined
  }

  /** `v?.key`: `undefined` when `v` is nullish, `v.key` otherwise. */
  function OptGet(v: Value, key: string): Value {
    if IsNullish(v) then Undefined else Get(v, key)
  }
}
