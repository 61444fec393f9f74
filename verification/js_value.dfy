/** The JavaScript values the application reads and writes: what `JSON.parse`
    can produce, plus `undefined`. Objects are finite maps from property names,
    which is all the application observes of them (key order is not modelled). */
module JsValue {
  import opened Results

  datatype Value =
    | Undefined
    | Null
    | Bool(b: bool)
    | Num(n: real)
    | Str(s: string)
    | Arr(items: seq<Value>)
    | Obj(fields: map<string, Value>)

  /** A plain object used as a record (a note, a tag, a user, ...). */
  type Record = map<string, Value>

  /** JavaScript truthiness, `!!v`. JSON numbers are never NaN. */
  predicate Truthy(v: Value) {
    match v
    case Undefined => false
    case Null => false
    case Bool(b) => b
    case Num(n) => n != 0.0
    case Str(s) => |s| > 0
    case Arr(_) => true
    case Obj(_) => true
  }

  /** Property read `r.k`: a missing property reads as `undefined`. */
  function Field(r: Record, k: string): Value {
    if k in r then r[k] else Undefined
  }

  /** `r.id === id` for a string `id`. */
  predicate HasId(r: Record, id: string) {
    Field(r, "id") == Str(id)
  }

  /** Object spread `{...a, ...b}`: every key of either, the value of `b` winning. */
  function Spread(a: Record, b: Record): (r: Record)
    ensures r.Keys == a.Keys + b.Keys
    ensures forall k :: k in b ==> r[k] == b[k]
    ensures forall k :: k in a && k !in b ==> r[k] == a[k]
  {
    a + b
  }

  /** Property read `v.length`: `None` when the read throws a `TypeError`
      (on `null` and `undefined`); `undefined` on booleans and numbers. */
  function Length(v: Value): (r: Option<Value>)
    ensures r.None? <==> v.Null? || v.Undefined?
    ensures v.Arr? ==> r == Some(Num(|v.items| as real))
    ensures v.Str? ==> r == Some(Num(|v.s| as real))
    ensures v.Obj? ==> r == Some(Field(v.fields, "length"))
  {
    match v
    case Undefined => None
    case Null => None
    case Bool(_) => Some(Undefined)
    case Num(_) => Some(Undefined)
    case Str(s) => Some(Num(|s| as real))
    case Arr(items) => Some(Num(|items| as real))
    case Obj(fields) => Some(Field(fields, "length"))
  }
}
