// JSON-shaped Python values: what json.load produces and what the ATS
// APIs hand back, with Python's truthiness and dict.get.
module Json {
  import opened Wrappers

  datatype Value =
    | Null
    | Bool(b: bool)
    | Int(i: int)
    | Float(f: real)
    | Str(s: string)
    | List(items: seq<Value>)
    | Object(fields: map<string, Value>)

  /** Python's bool(v). */
  predicate Truthy(v: Value) {
    match v
    case Null => false
    case Bool(b) => b
    case Int(i) => i != 0
    case Float(f) => f != 0.0
    case Str(s) => s != []
    case List(xs) => xs != []
    case Object(m) => m != map[]
  }

  /** d.get(key) on a dict. */
  function Get(fields: map<string, Value>, key: string): (r: Option<Value>)
    ensures r.Some? <==> key in fields
    ensures r.Some? ==> r.value == fields[key]
  {
    if key in fields then Some(fields[key]) else None
  }

  /** d.get(key, default): the stored value wins even when it is null. */
  function GetOr(fields: map<string, Value>, key: string, default: Value): Value {
    Get(fields, key).GetOr(default)
  }

  /** Python's `a or b`. */
  function Or(a: Value, b: Value): Value {
    if Truthy(a) then a else b
  }

  /** A string value as an optional string: None for anything else. */
  function AsString(v: Value): Option<string> {
    if v.Str? then Some(v.s) else None
  }
}
