/**
 * `get_leetcode_data`: one POST of a fixed GraphQL document with the username
 * as its only variable, then a classification of the parsed reply. The HTTP
 * endpoint is abstracted as a function from the request to the parsed JSON
 * object it answers with; the document itself is a parameter.
 */
module LeetCode {
  import opened Wrappers
  import opened Json

  const Endpoint: string := "https://leetcode.com/graphql"

  /** A POST of a JSON body to a URL. */
  datatype PostRequest = PostRequest(url: string, body: Json)

  /** The JSON body `{"query": query, "variables": {"username": username}}`. */
  function RequestBody(query: string, username: string): Json
  {
    JObject(map["query" := JString(query), "variables" := JObject(map["username" := JString(username)])])
  }

  /** The GraphQL document a request body carries, if it has one. */
  function QueryOf(body: Json): Option<string>
  {
    if body.JObject? && "query" in body.fields && body.fields["query"].JString?
    then Some(body.fields["query"].s)
    else None
  }

  /** The `username` variable a request body carries, if it has one. */
  function UsernameOf(body: Json): Option<string>
  {
    if body.JObject? && "variables" in body.fields && body.fields["variables"].JObject?
       && "username" in body.fields["variables"].fields
       && body.fields["variables"].fields["username"].JString?
    then Some(body.fields["variables"].fields["username"].s)
    else None
  }

  /** The body carries exactly the document and the username it was built from, and nothing else. */
  lemma RequestBodyRoundTrip(query: string, username: string)
    ensures QueryOf(RequestBody(query, username)) == Some(query)
    ensures UsernameOf(RequestBody(query, username)) == Some(username)
    ensures RequestBody(query, username).fields.Keys == {"query", "variables"}
    ensures RequestBody(query, username).fields["variables"].fields.Keys == {"username"}
  {
  }

  /**
   * The classification of a parsed reply: an `errors` key, whatever its value,
   * gives None; otherwise the `data` value, or an empty object when absent.
   */
  function Classify(data: map<string, Json>): (r: Option<Json>)
    ensures r.None? <==> "errors" in data
    ensures r.Some? && "data" in data ==> r.value == data["data"]
    ensures r.Some? && "data" !in data ==> r.value == JObject(map[])
  {
    if "errors" in data then None
    else if "data" in data then Some(data["data"])
    else Some(JObject(map[]))
  }

  /** `get_leetcode_data(username)`: the reply to the one POST, classified. */
  function GetLeetCodeData(username: string, query: string,
                           post: PostRequest -> map<string, Json>): (r: Option<Json>)
    ensures var reply := post(PostRequest(Endpoint, RequestBody(query, username)));
            (r.None? <==> "errors" in reply) &&
            (r.Some? ==> r.value == if "data" in reply then reply["data"] else JObject(map[]))
  {
    Classify(post(PostRequest(Endpoint, RequestBody(query, username))))
  }

  /**
   * A reply whose `data` is JSON null reaches the caller as Python's None, the
   * same value as a reply reporting errors.
   */
  lemma NullDataLooksLikeErrors(errors: Json, others: map<string, Json>)
    requires "errors" !in others
    ensures Classify(others["data" := JNull]).Some?
    ensures Classify(others["errors" := errors]).None?
    ensures PyValue(Classify(others["data" := JNull])) == PyValue(Classify(others["errors" := errors]))
  {
  }
}
