/** The values `json.loads` produces, as the detector sees them: an upstream
    answer is any JSON value, and its objects are Python dictionaries read
    with `.get(key, default)` and `in`. */
module Json {

  /** A decoded JSON value. Numbers are not inspected by the detector, so
      integers and floats share one constructor. */
  datatype Value =
    | Null
    | Bool(b: bool)
    | Number(n: real)
    | Str(s: string)
    | Array(items: seq<Value>)
    | Object(fields: map<string, Value>)

  /** `fields.get(key, default)`: the stored value when the key is present,
      even if that value is `null`; the default only when the key is absent. */
  function Get(fields: map<string, Value>, key: string, default: Value): (v: Value)
    ensures CopiedOrDefault(fields, key, default, v)
  {
    if key in fields then fields[key] else default
  }

  /** The specification of `.get(key, default)`: `v` is the stored value
      when the key is present and the default when it is absent. */
  predicate CopiedOrDefault(fields: map<string, Value>, key: string, default: Value, v: Value) {
    (key in fields ==> v == fields[key]) && (key !in fields ==> v == default)
  }
}
