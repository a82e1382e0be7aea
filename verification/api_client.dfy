/**
 * The API client's request policy: the configuration defaults, the retry loop
 * over the outcomes of successive attempts, the classification of responses
 * and thrown errors, and the construction of the query string. Each attempt's
 * outcome is an input (`outcome(k)` is what the k-th call of the operation
 * produced); sleeping is recorded as the list of waits instead of performed.
 */
module ApiClient {
  import opened Wrappers
  import opened JsText
  import Seqs

  // ---------------------------------------------------------------------------
  // Configuration
  // ---------------------------------------------------------------------------

  datatype Config = Config(baseUrl: string, timeout: int, retryAttempts: int, retryDelay: int)

  /** `DEFAULT_CONFIG`; `apiUrl` is the `NEXT_PUBLIC_API_URL` environment variable. */
  function DefaultConfig(apiUrl: Option<string>): (c: Config)
    ensures c.timeout == 30000 && c.retryAttempts == 3 && c.retryDelay == 1000
    ensures c.baseUrl == (if apiUrl.Some? && apiUrl.value != "" then apiUrl.value else "/api")
  {
    Config(if apiUrl.Some? && apiUrl.value != "" then apiUrl.value else "/api", 30000, 3, 1000)
  }

  const SuccessCodes: seq<int> := [200, 201, 202, 204]
  const RetryCodes: seq<int> := [408, 429, 500, 502, 503, 504]

  // ---------------------------------------------------------------------------
  // Thrown values and their classification
  // ---------------------------------------------------------------------------

  /** What an attempt can throw: an `Error` instance, a response-like object with a status, or anything else. */
  datatype Thrown =
    | ErrorObject(name: string, message: string)
    | StatusObject(status: int)
    | OtherValue

  /**
   * `isRetryableError`: an `Error` that is a timeout or a `TypeError` (the
   * network failures among them), or a response-like object whose status is
   * a retry code; nothing else.
   */
  function IsRetryableError(e: Thrown): (b: bool)
    ensures e.ErrorObject? ==> (b <==> HandleError(e).code == "REQUEST_TIMEOUT" || e.name == "TypeError")
    ensures e.ErrorObject? && HandleError(e).code == "NETWORK_ERROR" ==> b
    ensures e.StatusObject? ==> (b <==> e.status in RetryCodes)
    ensures e.OtherValue? ==> !b
  {
    match e
    case ErrorObject(name, _) => name == "TypeError" || name == "AbortError"
    case StatusObject(status) => status in RetryCodes
    case OtherValue => false
  }

  datatype ApiError = ApiError(code: string, message: string)

  const DefaultErrorMessage := "An unexpected error occurred"

  /** `handleError`: timeouts, network failures and everything else. */
  function HandleError(e: Thrown): (r: ApiError)
    ensures r.code == "REQUEST_TIMEOUT" <==> e.ErrorObject? && e.name == "AbortError"
    ensures r.code == "NETWORK_ERROR" <==>
      e.ErrorObject? && e.name == "TypeError" && Includes(e.message, "fetch")
    ensures r.code in {"REQUEST_TIMEOUT", "NETWORK_ERROR", "UNKNOWN_ERROR"}
    ensures r.code == "UNKNOWN_ERROR" && e.ErrorObject? ==>
      r.message == if e.message == "" then DefaultErrorMessage else e.message
    ensures !e.ErrorObject? ==> r == ApiError("UNKNOWN_ERROR", DefaultErrorMessage)
  {
    match e
    case ErrorObject(name, message) =>
      if name == "AbortError" then ApiError("REQUEST_TIMEOUT", "Request timed out")
      else if name == "TypeError" && Includes(message, "fetch") then ApiError("NETWORK_ERROR", "Network connection failed")
      else ApiError("UNKNOWN_ERROR", if message == "" then DefaultErrorMessage else message)
    case _ => ApiError("UNKNOWN_ERROR", DefaultErrorMessage)
  }

  /** Every error reported as a timeout or a network failure was one the retry loop would retry. */
  lemma ReportedTransportErrorsAreRetryable(e: Thrown)
    requires HandleError(e).code != "UNKNOWN_ERROR"
    ensures IsRetryableError(e)
  {
  }

  // ---------------------------------------------------------------------------
  // The retry loop
  // ---------------------------------------------------------------------------

  /** The outcome of one call of the operation: a response with its status, or a thrown value. */
  datatype Attempt = Responded(status: int) | Threw(error: Thrown)

  /** An outcome after which the loop sleeps and tries again (unless it was the last attempt). */
  predicate Retried(a: Attempt)
  {
    match a
    case Responded(status) => status in RetryCodes
    case Threw(e) => IsRetryableError(e)
  }

  datatype Final = Returned(status: int) | Failed(error: Thrown)

  /** How the loop ended, the number of the last attempt made, and the waits between attempts. */
  datatype RetryResult = RetryResult(final: Final, calls: nat, waits: seq<int>)

  /** `new Error(\`Request failed after ${n} attempts\`)`. */
  function ExhaustedError(n: int): Thrown
  {
    ErrorObject("Error", "Request failed after " + IntToString(n) + " attempts")
  }

  const LoopExitError := ErrorObject("Error", "Unexpected retry loop exit")

  /** The loop from attempt number `attempt` on. */
  function RetryFrom(outcome: nat -> Attempt, attempt: nat, maxAttempts: int, delay: int): (r: RetryResult)
    requires 1 <= attempt
    ensures attempt > maxAttempts ==> r == RetryResult(Failed(LoopExitError), attempt - 1, [])
    ensures attempt <= maxAttempts ==> attempt <= r.calls <= maxAttempts
    ensures attempt <= maxAttempts ==> |r.waits| == r.calls - attempt
    ensures forall k :: 0 <= k < |r.waits| ==> r.waits[k] == delay * (attempt + k)
    ensures forall k :: attempt <= k < r.calls ==> Retried(outcome(k))
    ensures attempt <= maxAttempts && r.calls < maxAttempts ==> !Retried(outcome(r.calls))
    ensures r.final.Returned? ==>
      outcome(r.calls) == Responded(r.final.status) && r.final.status !in RetryCodes
    ensures attempt <= maxAttempts && outcome(r.calls).Responded? && outcome(r.calls).status in RetryCodes ==>
      r.final == Failed(ExhaustedError(maxAttempts))
    ensures attempt <= maxAttempts && outcome(r.calls).Threw? ==> r.final == Failed(outcome(r.calls).error)
    ensures attempt <= maxAttempts && outcome(r.calls).Responded? && outcome(r.calls).status !in RetryCodes ==>
      r.final == Returned(outcome(r.calls).status)
    decreases if maxAttempts < attempt then 0 else maxAttempts - attempt + 1
  {
    if attempt > maxAttempts then RetryResult(Failed(LoopExitError), attempt - 1, [])
    else
      var a := outcome(attempt);
      if attempt == maxAttempts && a.Responded? && a.status in RetryCodes then
        RetryResult(Failed(ExhaustedError(maxAttempts)), attempt, [])
      else if attempt == maxAttempts && a.Threw? then
        RetryResult(Failed(a.error), attempt, [])
      else if Retried(a) then
        var rest := RetryFrom(outcome, attempt + 1, maxAttempts, delay);
        RetryResult(rest.final, rest.calls, [delay * attempt] + rest.waits)
      else if a.Responded? then
        RetryResult(Returned(a.status), attempt, [])
      else
        RetryResult(Failed(a.error), attempt, [])
  }

  /** A per-request retry override (`{ attempts, delay }`). */
  datatype RetryConfig = RetryConfig(attempts: int, delay: int)

  /** `retryConfig?.attempts || this.config.retryAttempts`: absent or 0 falls back. */
  function MaxAttempts(retry: Option<RetryConfig>, config: Config): (n: int)
    ensures retry.Some? && retry.value.attempts != 0 ==> n == retry.value.attempts
    ensures retry.None? || retry.value.attempts == 0 ==> n == config.retryAttempts
  {
    if retry.Some? && retry.value.attempts != 0 then retry.value.attempts else config.retryAttempts
  }

  /** `retryConfig?.delay || this.config.retryDelay`. */
  function RetryDelay(retry: Option<RetryConfig>, config: Config): (d: int)
    ensures retry.Some? && retry.value.delay != 0 ==> d == retry.value.delay
    ensures retry.None? || retry.value.delay == 0 ==> d == config.retryDelay
  {
    if retry.Some? && retry.value.delay != 0 then retry.value.delay else config.retryDelay
  }

  /** `executeWithRetry(operation, retryConfig)`. */
  function ExecuteWithRetry(outcome: nat -> Attempt, retry: Option<RetryConfig>, config: Config): (r: RetryResult)
    ensures 1 <= MaxAttempts(retry, config) ==> 1 <= r.calls <= MaxAttempts(retry, config)
    ensures MaxAttempts(retry, config) < 1 ==> r == RetryResult(Failed(LoopExitError), 0, [])
    ensures |r.waits| == if r.calls == 0 then 0 else r.calls - 1
    ensures forall k :: 0 <= k < |r.waits| ==> r.waits[k] == RetryDelay(retry, config) * (k + 1)
    ensures forall k :: 1 <= k < r.calls ==> Retried(outcome(k))
    ensures r.final.Returned? ==> outcome(r.calls) == Responded(r.final.status) && r.final.status !in RetryCodes
    ensures 1 <= MaxAttempts(retry, config) && r.calls < MaxAttempts(retry, config) ==> !Retried(outcome(r.calls))
    ensures 1 <= MaxAttempts(retry, config) && outcome(r.calls).Responded? ==>
      r.final == if outcome(r.calls).status in RetryCodes then Failed(ExhaustedError(MaxAttempts(retry, config)))
                 else Returned(outcome(r.calls).status)
    ensures 1 <= MaxAttempts(retry, config) && outcome(r.calls).Threw? ==> r.final == Failed(outcome(r.calls).error)
  {
    RetryFrom(outcome, 1, MaxAttempts(retry, config), RetryDelay(retry, config))
  }

  /** A zero override falls back to the client's configuration exactly like an absent one. */
  lemma ZeroOverrideIsNoOverride(outcome: nat -> Attempt, config: Config)
    ensures ExecuteWithRetry(outcome, Some(RetryConfig(0, 0)), config) == ExecuteWithRetry(outcome, None, config)
  {
  }

  /** The first attempt's response is returned as is when its status is not a retry code. */
  lemma FirstGoodResponseReturned(outcome: nat -> Attempt, retry: Option<RetryConfig>, config: Config)
    requires 1 <= MaxAttempts(retry, config)
    requires outcome(1).Responded? && outcome(1).status !in RetryCodes
    ensures ExecuteWithRetry(outcome, retry, config) == RetryResult(Returned(outcome(1).status), 1, [])
  {
  }

  /**
   * The loop returns the first response whose status is not a retry code,
   * provided every earlier attempt was retryable and it comes within the limit.
   */
  lemma {:induction false} ReturnsFirstGoodResponse(outcome: nat -> Attempt, attempt: nat, maxAttempts: int, delay: int, n: nat)
    requires 1 <= attempt <= n <= maxAttempts
    requires forall k :: attempt <= k < n ==> Retried(outcome(k))
    requires outcome(n).Responded? && outcome(n).status !in RetryCodes
    ensures RetryFrom(outcome, attempt, maxAttempts, delay).final == Returned(outcome(n).status)
    ensures RetryFrom(outcome, attempt, maxAttempts, delay).calls == n
    decreases n - attempt
  {
    if attempt < n {
      ReturnsFirstGoodResponse(outcome, attempt + 1, maxAttempts, delay, n);
    }
  }

  /** With no override, an operation that keeps answering 503 is called three times and waits 1 s then 2 s. */
  lemma DefaultPolicyOnPersistentOutage(outcome: nat -> Attempt, apiUrl: Option<string>)
    requires forall k :: outcome(k) == Responded(503)
    ensures ExecuteWithRetry(outcome, None, DefaultConfig(apiUrl)) ==
      RetryResult(Failed(ExhaustedError(3)), 3, [1000, 2000])
  {
    var c := DefaultConfig(apiUrl);
    var r3 := RetryFrom(outcome, 3, 3, 1000);
    assert r3 == RetryResult(Failed(ExhaustedError(3)), 3, []);
    var r2 := RetryFrom(outcome, 2, 3, 1000);
    assert r2 == RetryResult(Failed(ExhaustedError(3)), 3, [2000]);
  }

  /** A thrown value that is not retryable ends the loop at once, on any attempt. */
  lemma NonRetryableThrownAtOnce(outcome: nat -> Attempt, attempt: nat, maxAttempts: int, delay: int)
    requires 1 <= attempt <= maxAttempts
    requires outcome(attempt).Threw? && !IsRetryableError(outcome(attempt).error)
    ensures RetryFrom(outcome, attempt, maxAttempts, delay) == RetryResult(Failed(outcome(attempt).error), attempt, [])
  {
  }

  // ---------------------------------------------------------------------------
  // Responses
  // ---------------------------------------------------------------------------

  /** A response body: parsed JSON with its optional `message` and `errors`, or a body that does not parse. */
  datatype Body<D> = JsonBody(data: D, message: Option<string>, errors: Option<map<string, seq<string>>>) | Unparseable

  /** A response as `handleResponse` reads it. */
  datatype Response<D> = Response(
    status: int,
    statusText: string,
    body: Body<D>,
    requestIdHeader: Option<string>,
    versionHeader: Option<string>)

  /**
   * `ApiResponse`; an `errors` of `None` is the absent field, and the empty-array
   * fallback `data.errors || []` is an empty map.
   */
  datatype ApiResponse<D> = ApiResponse(
    data: Option<D>,
    success: bool,
    message: string,
    errors: Option<map<string, seq<string>>>,
    requestId: string,
    version: string)

  /** `header || fallback`: an absent or empty header falls back. */
  function HeaderOr(h: Option<string>, fallback: string): (v: string)
    ensures fallback != "" ==> v != ""
    ensures h.Some? && h.value != "" ==> v == h.value
  {
    if h.Some? && h.value != "" then h.value else fallback
  }

  /** `handleResponse`. */
  function HandleResponse<D>(resp: Response<D>): (r: ApiResponse<D>)
    ensures r.success <==> resp.status in SuccessCodes
    ensures r.data.Some? <==> r.success && resp.body.JsonBody?
    ensures r.data.Some? ==> r.data.value == resp.body.data
    ensures resp.body.Unparseable? ==> (r.errors.None? &&
      r.message == if r.success then "Success" else "HTTP " + IntToString(resp.status) + ": " + resp.statusText)
    ensures resp.body.JsonBody? ==> (r.errors.Some? &&
      r.message == if resp.body.message.Some? && resp.body.message.value != "" then resp.body.message.value else resp.statusText)
    ensures r.requestId != "" && r.version != ""
  {
    var ok := resp.status in SuccessCodes;
    var requestId := HeaderOr(resp.requestIdHeader, "unknown");
    var version := HeaderOr(resp.versionHeader, "1.0");
    match resp.body
    case JsonBody(data, message, errors) =>
      ApiResponse(
        if ok then Some(data) else None,
        ok,
        if message.Some? && message.value != "" then message.value else resp.statusText,
        Some(if errors.Some? then errors.value else map[]),
        requestId, version)
    case Unparseable =>
      ApiResponse(
        None,
        ok,
        if ok then "Success" else "HTTP " + IntToString(resp.status) + ": " + resp.statusText,
        None,
        requestId, version)
  }

  /** No status is both a success and a retry code, so a returned success is never retried. */
  lemma SuccessIsNeverRetried(status: int)
    requires status in SuccessCodes
    ensures status !in RetryCodes
  {
  }

  // ---------------------------------------------------------------------------
  // Query strings
  // ---------------------------------------------------------------------------

  /** A parameter value: `null`, `undefined`, or anything else as `String(value)` prints it. */
  datatype ParamValue = Null | Undefined | Text(text: string)

  predicate IsPresent(p: (string, ParamValue))
  {
    p.1.Text?
  }

  function Present(): ((string, ParamValue)) -> bool
  {
    (p: (string, ParamValue)) => IsPresent(p)
  }

  /** `key=value` for one appended parameter. */
  function Pair(p: (string, ParamValue)): string
    requires IsPresent(p)
  {
    p.0 + "=" + p.1.text
  }

  function Pairs(ps: seq<(string, ParamValue)>): (r: seq<string>)
    requires forall i :: 0 <= i < |ps| ==> IsPresent(ps[i])
    ensures |r| == |ps|
    ensures forall i :: 0 <= i < |ps| ==> r[i] == Pair(ps[i])
  {
    seq(|ps|, i requires 0 <= i < |ps| => Pair(ps[i]))
  }

  /** `new URLSearchParams()` fed the non-null entries in order, then `toString()`. */
  function QueryString(params: seq<(string, ParamValue)>): (q: string)
    ensures q == "" <==> Seqs.Filter(params, Present()) == []
  {
    var kept := Seqs.Filter(params, Present());
    Join(Pairs(kept), "&")
  }

  /** `buildUrlWithParams(url, params)`; params are the object's entries in key order. */
  function BuildUrlWithParams(url: string, params: Option<seq<(string, ParamValue)>>): (r: string)
    ensures params.None? || Seqs.Filter(params.value, Present()) == [] ==> r == url
    ensures StartsWith(r, url)
    ensures params.Some? && Seqs.Filter(params.value, Present()) != [] ==> r == url + "?" + QueryString(params.value)
  {
    if params.None? || |params.value| == 0 then url
    else
      var q := QueryString(params.value);
      if q != "" then url + "?" + q else url
  }

  /**
   * When no key or value contains '&', the query string splits back into one
   * `key=value` piece per non-null parameter, in order.
   */
  lemma QuerySplitsIntoPairs(params: seq<(string, ParamValue)>)
    requires Seqs.Filter(params, Present()) != []
    requires forall i :: 0 <= i < |params| && IsPresent(params[i]) ==> '&' !in params[i].0 && '&' !in params[i].1.text
    ensures Split(QueryString(params), '&') == Pairs(Seqs.Filter(params, Present()))
  {
    var kept := Seqs.Filter(params, Present());
    KeptHaveNoAmp(params);
    PairsHaveNoAmp(kept);
    SplitJoin(Pairs(kept), '&');
  }

  lemma KeptHaveNoAmp(params: seq<(string, ParamValue)>)
    requires forall i :: 0 <= i < |params| && IsPresent(params[i]) ==> '&' !in params[i].0 && '&' !in params[i].1.text
    ensures forall i :: 0 <= i < |Seqs.Filter(params, Present())| ==>
      '&' !in Seqs.Filter(params, Present())[i].0 && '&' !in Seqs.Filter(params, Present())[i].1.text
  {
    var kept := Seqs.Filter(params, Present());
    forall i | 0 <= i < |kept|
      ensures '&' !in kept[i].0 && '&' !in kept[i].1.text
    {
      var j :| 0 <= j < |params| && params[j] == kept[i];
    }
  }

  lemma PairsHaveNoAmp(kept: seq<(string, ParamValue)>)
    requires forall i :: 0 <= i < |kept| ==> IsPresent(kept[i]) && '&' !in kept[i].0 && '&' !in kept[i].1.text
    ensures forall i :: 0 <= i < |kept| ==> '&' !in Pairs(kept)[i]
  {
    forall i | 0 <= i < |kept|
      ensures '&' !in Pairs(kept)[i]
    {
      assert Pairs(kept)[i] == kept[i].0 + "=" + kept[i].1.text;
    }
  }
}
