/** The decoded JSON values that travel in payloads and are stored as documents. */
module Json {
  import opened Base

  /** A JSON value as Python's `json.loads` returns it; numbers are kept exact. */
  datatype Value =
    | Null
    | Bool(b: bool)
    | Num(n: real)
    | Str(s: string)
    | Arr(items: seq<Value>)
    | Obj(fields: map<string, Value>)

  /** `value[key]` on a dict; on anything else, or a missing key, Python raises. */
  function Get(v: Value, key: string): (r: Option<Value>)
    ensures r.Some? <==> v.Obj? && key in v.fields
    ensures r.Some? ==> r.value == v.fields[key]
  {
    if v.Obj? && key in v.fields then Some(v.fields[key]) else None
  }
}
