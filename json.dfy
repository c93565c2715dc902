/** Parsed JSON values, as `response.json()` hands them to the fetchers. */
module Json {
  import opened Wrappers

  datatype Json =
    | JNull
    | JBool(b: bool)
    | JNumber(n: int)
    | JString(s: string)
    | JArray(items: seq<Json>)
    | JObject(fields: map<string, Json>)

  /**
   * The Python value a fetcher's result is seen as by its caller: the absent
   * result (`None`) and a parsed JSON `null` are both Python's `None`.
   */
  function PyValue(r: Option<Json>): Json
  {
    match r
    case None => JNull
    case Some(j) => j
  }
}
