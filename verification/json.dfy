/** A JSON value, as far as the gateway's `Input` field needs one. Numbers
    are kept as integers: the model never reads their value. */
module Json {
  import opened GoText

  datatype Json =
    | JNull
    | JBool(b: bool)
    | JNumber(n: int)
    | JString(s: Bytes)
    | JArray(items: seq<Json>)
    | JObject(members: seq<(Bytes, Json)>)
}
