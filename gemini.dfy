/**
 * The two Gemini helpers: `get_gemini_response` (prompt truncation, then a
 * bounded retry loop with exponential backoff on quota errors) and
 * `get_gemini_response_with_pdf` (an empty-content guard, then one call with a
 * three-part payload).
 *
 * The remote model is abstracted as an input. For the retrying helper it is a
 * function from the attempt index to that attempt's outcome; for the PDF helper
 * it is a function from the payload to the outcome. `time.sleep(wait)` is
 * recorded as an entry `wait` in a wait log.
 */
module Gemini {
  import opened Wrappers

  /** The defaults of `get_gemini_response`'s `retries`, `delay` and `max_chars`; `retries` is also the PDF helper's default. */
  const DefaultRetries: int := 3
  const DefaultDelay: nat := 2
  const DefaultMaxChars: int := 6000

  /** Appended to a question longer than the character budget. */
  const TruncationMarker: string := "\n...(truncated)..."

  /** The warning sign (U+26A0 with the emoji variation selector) and a space that open both warnings. */
  const WarningSign: string := "⚠️ "

  /** Returned when the final attempt also hit the quota. */
  const QuotaMessage: string := WarningSign + "Gemini API quota exhausted. Please try again later."

  /** Prefixed to the message of any other exception. */
  const ErrorPrefix: string := "❌ Error: "

  /** Returned by the PDF helper when there is no PDF content. */
  const NoPdfMessage: string := WarningSign + "No PDF content provided."

  /**
   * What `generate_content` returned: an object with a `.text` attribute, or one
   * without it, which is only seen through its string form `str(response)`.
   */
  datatype Response = WithText(text: string) | WithoutText(asString: string)

  /**
   * The outcome of one attempt, that is of the whole `try` body: the call
   * returned a response, or raised `ResourceExhausted`, or raised any other
   * exception (an exception raised while reading `.text` is one of these). Each
   * exception carries its string form `str(e)`.
   */
  datatype Outcome =
    | Success(response: Response)
    | QuotaExhausted(message: string)
    | OtherError(message: string)

  /** The reply's text if it exposes one, otherwise its string form. */
  function ResponseText(r: Response): string
  {
    match r
    case WithText(t) => t
    case WithoutText(s) => s
  }

  /**
   * The string an outcome becomes when it is not retried: the response text, or
   * the generic error string for an exception of either kind.
   */
  function Rendered(o: Outcome): string
  {
    match o
    case Success(r) => ResponseText(r)
    case QuotaExhausted(m) => ErrorPrefix + m
    case OtherError(m) => ErrorPrefix + m
  }

  /** Python's slice `s[:n]`, where a negative `n` counts from the end. */
  function PyPrefix(s: string, n: int): (p: string)
    ensures |p| <= |s| && p == s[..|p|]
    ensures 0 <= n <= |s| ==> |p| == n
    ensures n < 0 ==> |p| == if |s| + n > 0 then |s| + n else 0
    ensures n > |s| ==> p == s
  {
    if n >= 0 then (if n <= |s| then s[..n] else s)
    else if |s| + n > 0 then s[..|s| + n]
    else []
  }

  /** The prompt actually sent for `question` under the budget `maxChars`. */
  function Truncate(question: string, maxChars: int): (prompt: string)
    // within the budget (the boundary included) the question is sent unchanged
    ensures |question| <= maxChars ==> prompt == question
    // over the budget: Python's question[:maxChars] followed by the marker
    ensures |question| > maxChars ==> prompt == PyPrefix(question, maxChars) + TruncationMarker
    ensures |question| > maxChars ==>
      |prompt| >= |TruncationMarker| &&
      prompt[|prompt| - |TruncationMarker|..] == TruncationMarker &&
      |prompt| - |TruncationMarker| <= |question| &&
      prompt[..|prompt| - |TruncationMarker|] == question[..|prompt| - |TruncationMarker|]
    // with a non-negative budget, exactly the first maxChars characters are kept
    ensures 0 <= maxChars < |question| ==>
      prompt == question[..maxChars] + TruncationMarker &&
      |prompt| == maxChars + |TruncationMarker|
    // so the prompt never exceeds the budget by more than the marker
    ensures 0 <= maxChars ==> |prompt| <= maxChars + |TruncationMarker|
  {
    if |question| > maxChars then
      var kept := PyPrefix(question, maxChars);
      assert (kept + TruncationMarker)[..|kept|] == kept;
      kept + TruncationMarker
    else
      question
  }

  /** With the default budget, a longer question is cut to 6000 characters and sent as 6018. */
  lemma DefaultBudget(question: string)
    requires |question| > DefaultMaxChars
    ensures Truncate(question, DefaultMaxChars) == question[..6000] + TruncationMarker
    ensures |Truncate(question, DefaultMaxChars)| == 6018
  {
  }

  /** Python's `2 ** i` for a non-negative exponent. */
  function Pow2(i: nat): nat
  {
    if i == 0 then 1 else 2 * Pow2(i - 1)
  }

  /** The waits slept before attempts 1 .. n: attempt i waits `delay * 2^i` after it fails. */
  function Backoff(delay: nat, n: nat): (waits: seq<nat>)
    ensures |waits| == n
  {
    if n == 0 then [] else Backoff(delay, n - 1) + [delay * Pow2(n - 1)]
  }

  /** Entry i of the backoff sequence is `delay * 2^i`. */
  lemma {:induction false} BackoffAt(delay: nat, n: nat, i: nat)
    requires i < n
    ensures Backoff(delay, n)[i] == delay * Pow2(i)
  {
    if i < n - 1 {
      BackoffAt(delay, n - 1, i);
    }
  }

  /**
   * The first attempt below n whose outcome is not a quota error, or n when all
   * of the first n outcomes are quota errors.
   */
  function FirstNonQuota(service: nat -> Outcome, n: nat): (k: nat)
    ensures k <= n
    ensures forall j :: 0 <= j < k ==> service(j).QuotaExhausted?
    ensures k < n ==> !service(k).QuotaExhausted?
  {
    if n == 0 then 0
    else
      var k := FirstNonQuota(service, n - 1);
      if k < n - 1 || !service(n - 1).QuotaExhausted? then k else n
  }

  /** What one run of the retrying helper returns and does. */
  datatype Attempts = Attempts(result: Option<string>, calls: nat, waits: seq<nat>)

  /**
   * Closed-form description of a run: no call at all when `retries <= 0`;
   * otherwise the quota errors before the first other outcome are retried with
   * backoff, that outcome is returned, and a quota error on the last attempt
   * gives the quota message.
   */
  function Expected(retries: int, delay: nat, service: nat -> Outcome): Attempts
  {
    if retries <= 0 then Attempts(None, 0, [])
    else
      var k := FirstNonQuota(service, retries);
      if k < retries then Attempts(Some(Rendered(service(k))), k + 1, Backoff(delay, k))
      else Attempts(Some(QuotaMessage), retries, Backoff(delay, retries - 1))
  }

  /**
   * `get_gemini_response(question, retries, delay, max_chars)`: returns the
   * reply (None when the loop body never runs), the prompt sent on each call,
   * and the waits slept, in order.
   */
  method GetGeminiResponse(question: string, retries: int, delay: nat, maxChars: int,
                           service: nat -> Outcome)
    returns (result: Option<string>, sent: seq<string>, waits: seq<nat>)
    ensures Attempts(result, |sent|, waits) == Expected(retries, delay, service)
    ensures forall i :: 0 <= i < |sent| ==> sent[i] == Truncate(question, maxChars)
  {
    var prompt := Truncate(question, maxChars);
    result, sent, waits := None, [], [];
    var attempt: nat := 0;
    while attempt < retries
      invariant retries > 0 ==> attempt < retries
      invariant retries <= 0 ==> attempt == 0
      invariant |sent| == attempt
      invariant forall i :: 0 <= i < |sent| ==> sent[i] == prompt
      invariant forall j :: 0 <= j < attempt ==> service(j).QuotaExhausted?
      invariant waits == Backoff(delay, attempt)
      invariant result == None
    {
      sent := sent + [prompt];
      match service(attempt) {
        case Success(response) =>
          result := Some(ResponseText(response));
          return;
        case QuotaExhausted(_) =>
          if attempt < retries - 1 {
            waits := waits + [delay * Pow2(attempt)];
          } else {
            result := Some(QuotaMessage);
            return;
          }
        case OtherError(message) =>
          result := Some(ErrorPrefix + message);
          return;
      }
      attempt := attempt + 1;
    }
  }

  /** At most `retries` calls; none and a `None` result when `retries <= 0`; one wait fewer than calls. */
  lemma AttemptBound(retries: int, delay: nat, service: nat -> Outcome)
    ensures Expected(retries, delay, service).calls <= if retries > 0 then retries else 0
    ensures Expected(retries, delay, service).result.None? <==> retries <= 0
    ensures retries <= 0 ==> Expected(retries, delay, service) == Attempts(None, 0, [])
    ensures retries > 0 ==>
      Expected(retries, delay, service).calls >= 1 &&
      Expected(retries, delay, service).waits == Backoff(delay, Expected(retries, delay, service).calls - 1)
  {
  }

  /** Quota errors on attempts 0 .. k-1, then a response at attempt k: its text, k+1 calls, k waits. */
  lemma SuccessAt(retries: int, delay: nat, service: nat -> Outcome, k: nat, response: Response)
    requires k < retries
    requires forall j :: 0 <= j < k ==> service(j).QuotaExhausted?
    requires service(k) == Success(response)
    ensures Expected(retries, delay, service) ==
      Attempts(Some(ResponseText(response)), k + 1, Backoff(delay, k))
  {
    assert FirstNonQuota(service, retries) == k;
  }

  /** Quota errors on attempts 0 .. k-1, then another exception at attempt k: the error string at once. */
  lemma OtherErrorAt(retries: int, delay: nat, service: nat -> Outcome, k: nat, message: string)
    requires k < retries
    requires forall j :: 0 <= j < k ==> service(j).QuotaExhausted?
    requires service(k) == OtherError(message)
    ensures Expected(retries, delay, service) ==
      Attempts(Some(ErrorPrefix + message), k + 1, Backoff(delay, k))
  {
    assert FirstNonQuota(service, retries) == k;
  }

  /** Every attempt hits the quota: the quota message after `retries` calls and `retries - 1` waits. */
  lemma Exhaustion(retries: int, delay: nat, service: nat -> Outcome)
    requires retries >= 1
    requires forall j :: 0 <= j < retries ==> service(j).QuotaExhausted?
    ensures Expected(retries, delay, service) ==
      Attempts(Some(QuotaMessage), retries, Backoff(delay, retries - 1))
  {
    assert FirstNonQuota(service, retries) == retries;
  }

  /** With the defaults (3 retries, delay 2) and a quota error every time: waits 2 then 4, 3 calls. */
  lemma ExhaustionWithDefaults(service: nat -> Outcome)
    requires forall j :: 0 <= j < DefaultRetries ==> service(j).QuotaExhausted?
    ensures Expected(DefaultRetries, DefaultDelay, service) == Attempts(Some(QuotaMessage), 3, [2, 4])
  {
    Exhaustion(DefaultRetries, DefaultDelay, service);
    assert Backoff(2, 2) == [2, 4];
  }

  /** One quota error, then a response: its text after 2 calls and one wait of `delay`. */
  lemma QuotaThenSuccess(retries: int, delay: nat, service: nat -> Outcome, response: Response)
    requires retries >= 2
    requires service(0).QuotaExhausted? && service(1) == Success(response)
    ensures Expected(retries, delay, service) ==
      Attempts(Some(ResponseText(response)), 2, [delay])
  {
    SuccessAt(retries, delay, service, 1, response);
    assert Backoff(delay, 1) == [delay];
  }

  /** Each wait is twice the one before it. */
  lemma BackoffDoubles(delay: nat, n: nat, i: nat)
    requires i + 1 < n
    ensures Backoff(delay, n)[i + 1] == 2 * Backoff(delay, n)[i]
  {
    BackoffAt(delay, n, i);
    BackoffAt(delay, n, i + 1);
  }

  /** Sum of a wait log. */
  function TotalWait(waits: seq<nat>): nat
  {
    if waits == [] then 0 else TotalWait(waits[..|waits| - 1]) + waits[|waits| - 1]
  }

  /** The n backoff waits add up to `delay * (2^n - 1)`. */
  lemma {:induction false} BackoffTotal(delay: nat, n: nat)
    ensures TotalWait(Backoff(delay, n)) + delay == delay * Pow2(n)
  {
    if n > 0 {
      var prev, p := Backoff(delay, n - 1), Pow2(n - 1);
      calc {
        TotalWait(Backoff(delay, n)) + delay;
        TotalWait(prev + [delay * p]) + delay;
        { LastWait(prev, delay * p); }
        TotalWait(prev) + delay + delay * p;
        { BackoffTotal(delay, n - 1); }
        delay * p + delay * p;
        delay * Pow2(n);
      }
    }
  }

  /** Appending a wait adds it to the total. */
  lemma LastWait(waits: seq<nat>, w: nat)
    ensures TotalWait(waits + [w]) == TotalWait(waits) + w
  {
    assert (waits + [w])[..|waits|] == waits;
  }

  /** What the PDF helper returns, and the payload of each call it made. */
  datatype Part<D> = Text(text: string) | Document(content: D)
  datatype PdfReply<D> = PdfReply(reply: string, calls: seq<seq<Part<D>>>)

  /**
   * `get_gemini_response_with_pdf(user_input, pdf_content, prompt, retries)`;
   * `pdfContent` is None for Python's None. `retries` is accepted and unused.
   */
  function GetGeminiResponseWithPdf<D>(userInput: string, pdfContent: Option<seq<D>>, prompt: string,
                                       retries: int, service: seq<Part<D>> -> Outcome): (r: PdfReply<D>)
    // no content: the warning, and no call
    ensures (pdfContent.None? || |pdfContent.value| == 0) ==> r.reply == NoPdfMessage && r.calls == []
    // content: exactly one call, with the ordered three-part payload of the first item only
    ensures pdfContent.Some? && |pdfContent.value| > 0 ==>
      |r.calls| == 1 &&
      r.calls[0] == [Text(userInput), Document(pdfContent.value[0]), Text(prompt)] &&
      r.reply == Rendered(service(r.calls[0]))
    // a quota error is not retried here: it becomes the generic error string
    ensures pdfContent.Some? && |pdfContent.value| > 0 && service(r.calls[0]).QuotaExhausted? ==>
      r.reply == ErrorPrefix + service(r.calls[0]).message
  {
    if pdfContent.None? || |pdfContent.value| == 0 then PdfReply(NoPdfMessage, [])
    else
      var payload := [Text(userInput), Document(pdfContent.value[0]), Text(prompt)];
      PdfReply(Rendered(service(payload)), [payload])
  }

  /** The reply and the calls made do not depend on `retries`. */
  lemma PdfIgnoresRetries<D>(userInput: string, pdfContent: Option<seq<D>>, prompt: string,
                             retries1: int, retries2: int, service: seq<Part<D>> -> Outcome)
    ensures GetGeminiResponseWithPdf(userInput, pdfContent, prompt, retries1, service) ==
            GetGeminiResponseWithPdf(userInput, pdfContent, prompt, retries2, service)
  {
  }

  /**
   * The PDF helper behaves like one attempt of the retrying helper for a response
   * or an ordinary exception, but reports a quota error as a generic error
   * rather than as the quota message.
   */
  lemma PdfVersusOneAttempt<D>(userInput: string, doc: D, prompt: string, retries: int,
                               service: seq<Part<D>> -> Outcome, delay: nat)
    ensures var pdf := GetGeminiResponseWithPdf(userInput, Some([doc]), prompt, retries, service);
            var o := service(pdf.calls[0]);
            var one := Expected(1, delay, i => o);
            one.calls == |pdf.calls| &&
            (!o.QuotaExhausted? ==> one == Attempts(Some(pdf.reply), 1, [])) &&
            (o.QuotaExhausted? ==> one.result == Some(QuotaMessage) && one.result != Some(pdf.reply))
  {
    var o := service([Text(userInput), Document(doc), Text(prompt)]);
    if o.QuotaExhausted? {
      assert (ErrorPrefix + o.message)[0] != QuotaMessage[0];
    }
  }
}
