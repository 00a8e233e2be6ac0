/** The JSON values the bridge builds and reads (a `serde_json::Value`).
    Text parsing and serialisation are not part of this model: a request
    body arrives already parsed, and a response carries the value itself. */
module Json {

  /** An `f64` produced by the driver, kept as an opaque token. Only one of
      its properties matters to the bridge: serde turns a non-finite float
      (NaN or an infinity) into `null`. */
  datatype F64 = F64(token: nat, finite: bool)

  datatype Value =
    | JNull
    | JBool(b: bool)
    | JFloat(f: F64)
    | JInt(n: int)
    | JString(str: string)
    | JArray(items: seq<Value>)
    | JObject(fields: map<string, Value>)

  /** `json!(f)` for a float: a number when finite, `null` otherwise. */
  function FromF64(f: F64): Value {
    if f.finite then JFloat(f) else JNull
  }
}
