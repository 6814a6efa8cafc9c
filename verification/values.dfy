/** The JavaScript values the component receives from the server and keeps in
    its view model, with JavaScript's notion of truthiness written out. */
module JsValues {
  import opened Wrappers

  /** A JSON-like JavaScript value. `Num` carries no NaN: see README. */
  datatype Value =
    | Undefined
    | Null
    | Bool(b: bool)
    | Num(n: real)
    | Str(s: string)
    | Arr(items: seq<Value>)
    | Obj(fields: map<string, Value>)

  /** A plain object, as the map from its own property names to their values. */
  type Record = map<string, Value>

  /** `x || d` picks `x` exactly when this holds: `undefined`, `null`, `false`,
      `0` and `""` are falsy, every other value (even `[]` and `{}`) is truthy. */
  predicate Truthy(v: Value)
    ensures (v.Arr? || v.Obj?) ==> Truthy(v)
    ensures Truthy(v) <==> v !in {Undefined, Null, Bool(false), Num(0.0), Str("")}
  {
    match v
    case Undefined => false
    case Null => false
    case Bool(b) => b
    case Num(n) => n != 0.0
    case Str(s) => s != ""
    case Arr(_) => true
    case Obj(_) => true
  }

  /** Property access `o.key`: a missing property reads as `undefined`. */
  function Get(o: Record, key: string): Value {
    if key in o then o[key] else Undefined
  }

  /** A DOM `dataset` entry is a string, or `undefined` when the attribute is absent. */
  function DatasetValue(attr: Option<string>): Value {
    match attr
    case Some(s) => Str(s)
    case None => Undefined
  }

  /** The property key that `o[attr]` uses: a missing dataset entry is the key "undefined". */
  function PropertyKey(attr: Option<string>): string {
    match attr
    case Some(s) => s
    case None => "undefined"
  }
}
