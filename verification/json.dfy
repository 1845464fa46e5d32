/** The parsed JSON values the program inspects, with the `serde_json::Value`
    accessors it calls. Parsing itself is an external collaborator: the model
    receives it as a function `string -> Option<Value>`. */
module Json {
  import opened Wrappers

  /** A JSON document. Numbers are kept as integers: the program never reads one. */
  datatype Value =
    | Null
    | Bool(b: bool)
    | Number(n: int)
    | Str(s: string)
    | Array(items: seq<Value>)
    | Object(fields: map<string, Value>)

  /** `Value::get(key)`: the member of an object, and nothing for any other value. */
  function Get(v: Value, key: string): Option<Value> {
    if v.Object? && key in v.fields then Some(v.fields[key]) else None
  }

  /** `v[key]`: like `Get`, but an absent member reads as `null`. */
  function Index(v: Value, key: string): Value {
    match Get(v, key)
    case Some(m) => m
    case None => Null
  }

  /** `v[i]` on an array; `null` when out of range or not an array. */
  function At(v: Value, i: nat): Value {
    if v.Array? && i < |v.items| then v.items[i] else Null
  }

  /** `Value::as_str`. */
  function AsStr(v: Value): Option<string> {
    if v.Str? then Some(v.s) else None
  }

  /** `Value::as_bool`. */
  function AsBool(v: Value): Option<bool> {
    if v.Bool? then Some(v.b) else None
  }

  /** `Value::as_array`. */
  function AsArray(v: Value): Option<seq<Value>> {
    if v.Array? then Some(v.items) else None
  }
}
