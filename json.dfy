/** JSON values as the client and the server see them after parsing, with
    JavaScript's notion of truthiness, which every `!x` and `x || y` in the
    source relies on. */
module Json {
  import opened Text

  datatype Value =
    | JNull
    | JBool(b: bool)
    | JNumber(n: real)
    | JString(s: string)
    | JArray(items: seq<Value>)
    | JObject(fields: map<string, Value>)

  /** `!!v`: `null`, `false`, `0` and `""` are falsy; everything else,
      including empty arrays and objects, is truthy. */
  predicate Truthy(v: Value) {
    match v
    case JNull => false
    case JBool(b) => b
    case JNumber(n) => n != 0.0
    case JString(s) => s != []
    case JArray(_) => true
    case JObject(_) => true
  }

  /** Truthiness of a property read that may give `undefined` (`None`). */
  predicate IsTruthy(v: Option<Value>) {
    v.Some? && Truthy(v.value)
  }

  /** `v.key` on a value that is not `null`: an object's own field, and
      `undefined` for a missing field or a value of another kind. */
  function Property(v: Value, key: string): (r: Option<Value>)
    ensures r.Some? <==> v.JObject? && key in v.fields
    ensures r.Some? ==> r.value == v.fields[key]
  {
    match v
    case JObject(fields) => if key in fields then Some(fields[key]) else None
    case _ => None
  }
}
