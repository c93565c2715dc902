/**
 * `load_lottieurl`: one GET of a URL; the parsed body on status 200, None
 * otherwise. The HTTP client is abstracted as a function from the URL to the
 * status code and the parsed body it answers with.
 */
module Lottie {
  import opened Wrappers
  import opened Json

  datatype HttpResponse = HttpResponse(statusCode: int, body: Json)

  /** `load_lottieurl(url)` */
  function LoadLottieUrl(url: string, get: string -> HttpResponse): (r: Option<Json>)
    ensures r.None? <==> get(url).statusCode != 200
    ensures r.Some? ==> r.value == get(url).body
  {
    var response := get(url);
    if response.statusCode != 200 then None else Some(response.body)
  }

  /**
   * The caller sees Python's None for every status other than 200, and also for
   * a 200 reply whose body is JSON null.
   */
  lemma NoneForCaller(url: string, get: string -> HttpResponse)
    ensures PyValue(LoadLottieUrl(url, get)) == JNull <==>
            get(url).statusCode != 200 || get(url).body == JNull
  {
  }
}
