/**
 * JavaScript values as they cross the itinerary endpoint's boundaries: the
 * request body, the provider's decoded reply, the parsed model text and the
 * front matter of POI content files.
 */
module JsValue {

  /**
   * A JavaScript value. Finite numbers carry their real value; `NaN` and the
   * two infinities are kept apart because JavaScript treats them differently
   * (`NaN` is falsy, the infinities are truthy, none is finite). An object is
   * its own properties in insertion order, each key listed once.
   */
  datatype Value =
    | Undefined
    | Null
    | Bool(b: bool)
    | Num(x: real)
    | NaN
    | Infinity(negative: bool)
    | Str(s: string)
    | Arr(items: seq<Value>)
    | Obj(fields: seq<(string, Value)>)

  /** JavaScript's truthiness: `undefined`, `null`, `false`, `0`, `NaN` and `''` are falsy. */
  predicate Truthy(v: Value) {
    match v
    case Undefined => false
    case Null => false
    case Bool(b) => b
    case Num(x) => x != 0.0
    case NaN => false
    case Infinity(_) => true
    case Str(s) => s != []
    case Arr(_) => true
    case Obj(_) => true
  }

  /** `typeof v === 'object' && v !== null`: arrays are objects too. */
  predicate IsObjectLike(v: Value) {
    v.Arr? || v.Obj?
  }

  /** The value bound to key `k` in a property list, or `undefined`. */
  function Lookup(fields: seq<(string, Value)>, k: string): (r: Value)
    ensures r != Undefined ==> exists i :: 0 <= i < |fields| && fields[i] == (k, r)
    ensures (forall i :: 0 <= i < |fields| ==> fields[i].0 != k) ==> r == Undefined
  {
    if fields == [] then Undefined
    else if fields[0].0 == k then fields[0].1
    else Lookup(fields[1..], k)
  }

  /** A key in second position is found when the first key differs. */
  lemma LookupSecond(fields: seq<(string, Value)>, k: string)
    requires |fields| >= 2 && fields[0].0 != k && fields[1].0 == k
    ensures Lookup(fields, k) == fields[1].1
  {
    assert fields[1..][0] == fields[1];
  }

  /** A key is found at its first position in the property list. */
  lemma {:induction false} LookupAt(fields: seq<(string, Value)>, i: int, k: string)
    requires 0 <= i < |fields| && fields[i].0 == k
    requires forall j :: 0 <= j < i ==> fields[j].0 != k
    ensures Lookup(fields, k) == fields[i].1
  {
    if i > 0 {
      LookupAt(fields[1..], i - 1, k);
    }
  }

  /**
   * Property read `v[k]` for the keys the model reads (`days`, `label`,
   * `poi_id`, ...). None of them is an own or inherited property of arrays,
   * strings, numbers or booleans, so only objects can yield something other
   * than `undefined`.
   */
  function Get(v: Value, k: string): Value {
    if v.Obj? then Lookup(v.fields, k) else Undefined
  }

  /** `Number.isInteger(v)`. */
  predicate IsInteger(v: Value) {
    v.Num? && v.x.Floor as real == v.x
  }

  /** `Array.isArray(v) && v.length > 0`. */
  predicate IsNonEmptyArray(v: Value) {
    v.Arr? && |v.items| > 0
  }

  /** The default of a destructuring pattern applies only when the property is `undefined`. */
  function OrDefault(v: Value, default: Value): (r: Value)
    ensures v != Undefined ==> r == v
    ensures v == Undefined ==> r == default
  {
    if v == Undefined then default else v
  }

  /** `v || fallback`. */
  function OrElse(v: Value, fallback: Value): (r: Value)
    ensures Truthy(v) ==> r == v
    ensures !Truthy(v) ==> r == fallback
  {
    if Truthy(v) then v else fallback
  }

  /** A JavaScript array of strings. */
  function Strings(ss: seq<string>): (r: Value)
    ensures r.Arr? && |r.items| == |ss|
    ensures forall i :: 0 <= i < |ss| ==> r.items[i] == Str(ss[i])
  {
    Arr(seq(|ss|, i requires 0 <= i < |ss| => Str(ss[i])))
  }
}
