/** The slice of `serde_json::Value` the clients inspect, and its accessors. */
module Json {
  import opened Wrappers

  const U64Limit: int := 0x1_0000_0000_0000_0000

  /** A JSON value.  A number is an integer or a float, as serde keeps it;
      integers beyond the 64-bit ranges are parsed as floats by serde, so
      `JInt` here holds the integers a `u64` or an `i64` can represent. */
  datatype Value =
    | JNull
    | JBool(b: bool)
    | JInt(i: int)
    | JFloat(f: real)
    | JString(s: string)
    | JArray(items: seq<Value>)
    | JObject(fields: map<string, Value>)

  /** A JSON object, as the clients hand documents around (`HashMap<String, Value>`). */
  type Doc = map<string, Value>

  /** `Value::get(key)`: the field of an object, nothing for any other value. */
  function Get(v: Value, key: string): (r: Option<Value>)
    ensures r.Some? <==> v.JObject? && key in v.fields
    ensures r.Some? ==> r.value == v.fields[key]
  {
    if v.JObject? && key in v.fields then Some(v.fields[key]) else None
  }

  /** `HashMap::get(key)` on a document. */
  function Field(d: Doc, key: string): (r: Option<Value>)
    ensures r.Some? <==> key in d
    ensures r.Some? ==> r.value == d[key]
  {
    if key in d then Some(d[key]) else None
  }

  /** `Value::as_str`. */
  function AsStr(v: Value): (r: Option<string>)
    ensures r.Some? <==> v.JString?
    ensures r.Some? ==> r.value == v.s
  {
    if v.JString? then Some(v.s) else None
  }

  /** `Value::as_u64`: integers from 0 up to `u64::MAX`. */
  function AsU64(v: Value): (r: Option<nat>)
    ensures r.Some? <==> v.JInt? && 0 <= v.i < U64Limit
    ensures r.Some? ==> r.value == v.i
  {
    if v.JInt? && 0 <= v.i < U64Limit then Some(v.i as nat) else None
  }

  /** `Value::as_f64`: every number (rounding of large integers is not modelled). */
  function AsF64(v: Value): (r: Option<real>)
    ensures r.Some? <==> v.JInt? || v.JFloat?
    ensures v.JInt? ==> r == Some(v.i as real)
    ensures v.JFloat? ==> r == Some(v.f)
  {
    match v
    case JInt(i) => Some(i as real)
    case JFloat(f) => Some(f)
    case _ => None
  }

  /** `Value::as_array`. */
  function AsArray(v: Value): (r: Option<seq<Value>>)
    ensures r.Some? <==> v.JArray?
    ensures r.Some? ==> r.value == v.items
  {
    if v.JArray? then Some(v.items) else None
  }

  /** `Value::as_object`. */
  function AsObject(v: Value): (r: Option<Doc>)
    ensures r.Some? <==> v.JObject?
    ensures r.Some? ==> r.value == v.fields
  {
    if v.JObject? then Some(v.fields) else None
  }

  /** `d.get(key).and_then(|v| v.as_str())`: the field if it is a string. */
  function StrField(d: Doc, key: string): (r: Option<string>)
    ensures r.Some? <==> key in d && d[key].JString?
    ensures r.Some? ==> r.value == d[key].s
  {
    match Field(d, key)
    case None => None
    case Some(v) => AsStr(v)
  }
}
