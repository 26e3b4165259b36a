/**
 The inputs the structural matcher examines: JSON-like values (strings,
 numbers, booleans, null, lists and string-keyed objects), plus the one
 non-JSON value the matcher can meet while it descends, JavaScript's
 `undefined`, produced by an out-of-range list index or a missing key.
 */
module Values {

  /** A JSON-like value. Numbers carry an integer payload: only their kind
      matters to the matcher. `Undefined` is never a legal top-level input,
      but it is what `input[i]` and `input[key]` yield when nothing is there. */
  datatype Value =
    | Str(s: string)
    | Num(n: int)
    | Bool(b: bool)
    | Null
    | Arr(items: seq<Value>)
    | Obj(fields: map<string, Value>)
    | Undefined

  /** JavaScript's `typeof` on a value: null, lists and objects are all
      "object"; the absent value is "undefined". */
  function TypeOf(v: Value): (t: string)
    ensures t == "string" <==> v.Str?
    ensures t == "number" <==> v.Num?
    ensures t == "boolean" <==> v.Bool?
    ensures t == "object" <==> (v.Null? || v.Arr? || v.Obj?)
    ensures t == "undefined" <==> v.Undefined?
  {
    match v
    case Str(_) => "string"
    case Num(_) => "number"
    case Bool(_) => "boolean"
    case Undefined => "undefined"
    case _ => "object"
  }

  /** `xs[i]` in JavaScript: the element when the index is in range,
      otherwise `undefined`. A lookup never invents a value. */
  function At(xs: seq<Value>, i: nat): (v: Value)
    ensures v in xs || v == Undefined
    ensures i >= |xs| ==> v == Undefined
  {
    if i < |xs| then xs[i] else Undefined
  }

  /** `m[key]` in JavaScript: the field when the key is present, otherwise
      `undefined`. A lookup never invents a value. */
  function Get(m: map<string, Value>, key: string): (v: Value)
    ensures v in m.Values || v == Undefined
    ensures key !in m ==> v == Undefined
  {
    if key in m then m[key] else Undefined
  }
}
