# Smart-Learn-Hub helpers: a Dafny model

This project models the decision logic of `util/common.py`, a file of thin wrappers
around two remote services: the Gemini text model and LeetCode's GraphQL API, plus
a loader for Lottie animation JSON. Once each remote call is replaced by an input,
what remains is:

- `get_gemini_response`: the question is truncated to a character budget. Then a
  `for attempt in range(retries)` loop calls the model. A reply is returned at
  once. A quota error (`ResourceExhausted`) before the last attempt sleeps
  `delay * 2^attempt` and retries; on the last attempt it returns a fixed warning.
  Any other exception returns `"❌ Error: " + str(e)` at once. With `retries <= 0`
  the loop never runs and the function returns `None`.
- `get_gemini_response_with_pdf`: empty or missing PDF content gives a fixed
  warning and no call. Otherwise there is exactly one call, with the payload
  `[user_input, pdf_content[0], prompt]`. Its `retries` parameter is never used.
- `get_leetcode_data` and `load_lottieurl`: how a parsed reply is classified.

Modules:

- `Gemini` (gemini.dfy) covers both Gemini helpers. The model is an input: for the
  retrying helper it is a function `service: nat -> Outcome` from attempt index to
  outcome; for the PDF helper it is a function from payload to outcome. An outcome
  is a reply (with or without `.text`), a quota error or another exception; each
  exception carries its `str(e)`.
- `GetGeminiResponse` is a method with the source's loop. It returns the result,
  the prompt sent on each call, and the wait log; each `time.sleep(wait)` becomes
  one entry `wait`. Its postcondition ties these to `Expected`, a closed-form
  description built from `FirstNonQuota`, the first attempt that is not a quota
  error, and `Backoff`, the sequence `delay * 2^i`. The lemmas then state each
  behaviour of the loop in terms of `Expected`.
- `LeetCode` (leetcode.dfy) and `Lottie` (lottie.dfy) model the two fetchers. Each
  takes the HTTP call as a function input. `Json` (json.dfy) holds the parsed JSON
  values; `Wrappers` (wrappers.dfy) holds `Option`.

The code accepts any integer `retries` and returns `None` when it is not positive;
the model keeps that, with `retries: int` and `delay: nat`. The defaults
`retries=3`, `delay=2` and `max_chars=6000` (and the PDF helper's unused
`retries=3`) are the constants `DefaultRetries`, `DefaultDelay` and
`DefaultMaxChars`.

## Model

| member | source | states |
|---|---|---|
| `Gemini.Truncate` | util/common.py:20-21 | A question of at most `max_chars` characters (the boundary included) is sent unchanged. A longer one is sent as Python's `question[:max_chars]` followed by the marker `"\n...(truncated)..."`, so as a prefix of the question followed by the marker. For `max_chars >= 0` that prefix is exactly the first `max_chars` characters, so the prompt has length `max_chars + 18` and never exceeds the budget by more than the marker. |
| `Gemini.PyPrefix` | util/common.py:21 | Python's `s[:n]`: a prefix of `s`, of length `n` for `0 <= n <= len(s)`, of length `max(0, len(s) + n)` for negative `n`, and all of `s` for `n > len(s)`. |
| `Gemini.DefaultBudget` | util/common.py:18-21 | With the default `max_chars=6000`, a longer question is sent as its first 6000 characters plus the marker, 6018 characters in all. |
| `Gemini.Pow2` | util/common.py:29 | Python's `2 ** attempt` for the non-negative attempt index. |
| `Gemini.ResponseText` | util/common.py:26 | The reply's `.text` when it has one, otherwise its string form. |
| `Gemini.Rendered` | util/common.py:26-35 | An outcome that is not retried becomes the reply's text, or `"❌ Error: " + str(e)` for an exception. |
| `Gemini.Expected` | util/common.py:23-35 | The closed form the loop is proved against: nothing when `retries <= 0`; otherwise the first non-quota outcome rendered after that many backoff waits, or the quota warning after `retries` calls. |
| `Gemini.Backoff` | util/common.py:28-31 | The wait log for `n` retried attempts has `n` entries. |
| `Gemini.BackoffAt` | util/common.py:29 | Entry `i` of the backoff sequence, the wait after a quota error on attempt `i`, is `delay * 2^i`. |
| `Gemini.FirstNonQuota` | util/common.py:23-27 | The first of the first `n` attempts whose outcome is not a quota error, or `n` if there is none: every earlier attempt was a quota error. |
| `Gemini.GetGeminiResponse` | util/common.py:18-35 | The result, the number of calls and the wait log are exactly `Expected(retries, delay, service)`. Every call is sent the truncated question. |
| `Gemini.AttemptBound` | util/common.py:23-33 | At most `retries` calls are made. The result is `None` exactly when `retries <= 0`, and then no call and no wait happen. Otherwise at least one call is made, and the wait log is the backoff sequence with one entry fewer than calls, so no wait follows the last call. |
| `Gemini.SuccessAt` | util/common.py:25-31 | Quota errors on attempts `0..k-1` followed by a reply at attempt `k < retries` return that reply's text (or its string form). That takes `k+1` calls and waits `[delay*2^0, …, delay*2^(k-1)]`. |
| `Gemini.OtherErrorAt` | util/common.py:27-35 | Quota errors on attempts `0..k-1` followed by any other exception at attempt `k` return `"❌ Error: " + message` at once. That takes `k+1` calls, and no wait is added for attempt `k`. |
| `Gemini.Exhaustion` | util/common.py:27-33 | When every one of `retries >= 1` attempts is a quota error, the result is the quota-exhausted warning. That takes `retries` calls and `retries-1` backoff waits. |
| `Gemini.ExhaustionWithDefaults` | util/common.py:18-33 | With the defaults (`retries=3`, `delay=2`) and a quota error every time, the helper waits 2 and then 4, makes 3 calls and returns the quota warning. |
| `Gemini.QuotaThenSuccess` | util/common.py:23-31 | One quota error followed by a reply returns the reply's text after 2 calls and a single wait of `delay`. |
| `Gemini.BackoffDoubles` | util/common.py:29 | Each backoff wait is twice the one before it. |
| `Gemini.BackoffTotal` | util/common.py:28-31 | The first `n` backoff waits add up to `delay * (2^n - 1)`. |
| `Gemini.LastWait` | util/common.py:31 | Appending a wait to the log adds it to the total time slept. |
| `Gemini.GetGeminiResponseWithPdf` | util/common.py:38-47 | Missing or empty PDF content returns `"⚠️ No PDF content provided."` and makes no call. Otherwise exactly one call is made, with the ordered payload `[user_input, pdf_content[0], prompt]`. The reply is the response text or `"❌ Error: " + message`, and a quota error is not retried. |
| `Gemini.PdfIgnoresRetries` | util/common.py:38-44 | The PDF helper's reply and calls do not depend on `retries`. |
| `Gemini.PdfVersusOneAttempt` | util/common.py:26-47 | For a reply or an ordinary exception, the PDF helper answers as one attempt of the retrying helper with `retries=1` would. For a quota error it answers differently: it gives the generic error string, not the quota warning. |
| `LeetCode.RequestBody` | util/common.py:102-103 | The JSON body `{"query": query, "variables": {"username": username}}` of the POST. |
| `LeetCode.RequestBodyRoundTrip` | util/common.py:102-103 | The POST body has exactly the keys `query` and `variables`. `variables` has exactly the key `username`. The query and the username read back out of the body are the ones it was built from. |
| `LeetCode.Classify` | util/common.py:106-110 | A reply with an `errors` key gives `None`, whatever that key's value, and only such a reply does. Otherwise the reply's `data` value is returned, or `{}` when there is no `data` key. |
| `LeetCode.GetLeetCodeData` | util/common.py:102-110 | The reply to one POST to the GraphQL endpoint, carrying the query and the username, is classified as above. |
| `LeetCode.NullDataLooksLikeErrors` | util/common.py:106-110 | A reply whose `data` is `null` is a success for the classification, but the caller receives the same `None` as for a reply carrying `errors`. |
| `Lottie.LoadLottieUrl` | util/common.py:116-121 | The result is absent exactly when the status is not 200. Otherwise it is the parsed body. |
| `Lottie.NoneForCaller` | util/common.py:119-121 | The caller receives `None` exactly when the status is not 200 or the body is JSON `null`. |

## Left out

- The network calls `model.generate_content`, `requests.post`, `requests.get` and `response.json()` are not modelled. They are foreign libraries, so their results are inputs: an outcome per attempt, an outcome per payload, a parsed reply, and a status with a body.
- `time.sleep` is not a real suspension here. Each sleep is one entry in the returned wait log.
- The `print` calls (util/common.py:30, 107) and the module-level `genai.GenerativeModel("gemini-1.5-flash")` set-up (util/common.py:12) are side effects and global configuration, so they are not modelled.
- The GraphQL document (util/common.py:56-101) is fixed text with no logic. It is the `query` parameter of `LeetCode.GetLeetCodeData`.
- `hasattr(response, "text")`, `str(response)` and `str(e)` are opaque. A response either exposes its text or only its string form, and an exception carries its message. An exception raised while `.text` is read counts as that attempt's outcome.
- `delay` is a natural number, not a float. Python's `len` and slicing are taken as sequence length and slicing over the characters of a Dafny `string`.
- Python type errors (a non-integer `retries`, a `pdf_content` that is neither a list nor `None`) are not modelled.
- JSON numbers are integers only; floating-point values are not modelled.
- `LeetCode.GetLeetCodeData`: the parsed reply is taken to be a JSON object. For a reply that is a list or a string, Python's `in` would test membership or a substring, and `.get` would then raise. That path is not modelled.
- Exceptions that escape `get_leetcode_data` and `load_lottieurl` are not modelled: transport errors from `requests`, and a body that is not valid JSON.
