/** The HTTP layer of `src/modules/core.py`: `ContentResponse`, and the way
    `HttpContent.fetch_url_content` and `HttpContent.download` turn whatever
    the request library did into a `ContentResponse`, together with the
    tenacity retry policy wrapped around `download`.

    The network is not modelled: each call takes the outcome of its GET as a
    `Transport` value.
 */
module Http {

  import opened Errors

  /** A `requests.Response`, reduced to what the core reads from it. */
  datatype Response = Response(statusCode: int, text: string)

  /** `bool(response)`, which is `response.ok`: false exactly for the statuses
      on which `raise_for_status` raises, 400 up to 599. */
  predicate Truthy(r: Response) {
    !(400 <= r.statusCode < 600)
  }

  /** The request exception classes the handlers distinguish. `ConnectTimeout`
      is a subclass of both `ConnectionError` and `Timeout` in requests. */
  datatype ExceptionClass =
    | ConnectionErrorClass
    | ConnectTimeoutClass
    | ReadTimeoutClass
    | OtherRequestException

  predicate IsConnectionError(k: ExceptionClass) {
    k.ConnectionErrorClass? || k.ConnectTimeoutClass?
  }

  predicate IsTimeout(k: ExceptionClass) {
    k.ConnectTimeoutClass? || k.ReadTimeoutClass?
  }

  /** What a GET did: it returned a response (whose status has not yet been
      checked by `raise_for_status`), or it raised a request exception, which
      may carry a response. A failure while streaming the body of a download
      is a `Raised` outcome too. */
  datatype Transport =
    | Received(response: Response)
    | Raised(kind: ExceptionClass, errorResponse: Option<Response>)

  datatype ContentResponse = ContentResponse(url: string, statusCode: int, content: string)

  /** `ContentResponse.bad_requests`, in declaration order. */
  const BadRequests: seq<int> := [502, 400, 504, 408, 500]

  const StatusOk := 200
  const BadGateway := 502
  const BadRequest := 400
  const GatewayTimeout := 504
  const InternalServerError := 500

  const NoResponseText := "No response text available"

  function IsFailure(r: ContentResponse): (b: bool)
    ensures b <==> r.statusCode in {400, 408, 500, 502, 504}
  {
    r.statusCode in BadRequests
  }

  function IsSuccess(r: ContentResponse): (b: bool)
    ensures b <==> !IsFailure(r)
  {
    r.statusCode !in BadRequests
  }

  /** The status a `fetch_url_content` handler falls back to when the raised
      exception carries no response; the handlers are tried in source order,
      so a connect timeout lands in the connection-error handler. */
  function FetchDefaultStatus(k: ExceptionClass): int {
    if IsConnectionError(k) then BadGateway
    else if IsTimeout(k) then GatewayTimeout
    else BadRequest
  }

  /** `HttpContent(url).fetch_url_content()` when the GET had outcome `t`. */
  function FetchUrlContent(url: string, t: Transport): (r: ContentResponse)
    ensures r.url == url
    ensures t.Received? ==>
      r.statusCode == t.response.statusCode && r.content == t.response.text
    ensures t.Raised? && t.errorResponse.Some? ==>
      r.statusCode == t.errorResponse.value.statusCode && r.content == t.errorResponse.value.text
    ensures t.Raised? && t.errorResponse.None? ==> r.content == NoResponseText
    ensures t.Raised? && t.errorResponse.None? && IsConnectionError(t.kind) ==> r.statusCode == 502
    ensures t.Raised? && t.errorResponse.None? && t.kind.ReadTimeoutClass? ==> r.statusCode == 504
    ensures t.Raised? && t.errorResponse.None? && t.kind.OtherRequestException? ==> r.statusCode == 400
  {
    match t
    case Received(response) =>
      if Truthy(response) then
        ContentResponse(url, response.statusCode, response.text)
      else
        // raise_for_status raised HTTPError, whose handler reads the response back
        ContentResponse(url, response.statusCode, response.text)
    case Raised(kind, errorResponse) =>
      match errorResponse
      case Some(response) => ContentResponse(url, response.statusCode, response.text)
      case None => ContentResponse(url, FetchDefaultStatus(kind), NoResponseText)
  }

  /** One call of the undecorated `HttpContent(url).download(filePath)` when
      the GET had outcome `t`. The handler tests `if exception.response`,
      which is the response's truthiness, not `is not None`. */
  function Download(url: string, filePath: string, t: Transport): (r: ContentResponse)
    ensures r.url == url
    ensures t.Received? && Truthy(t.response) ==> r.statusCode == 200 && r.content == filePath
    ensures t.Received? && !Truthy(t.response) ==>
      r.statusCode == 500 && r.content == NoResponseText
    ensures t.Raised? && (t.errorResponse.None? || !Truthy(t.errorResponse.value)) ==>
      r.statusCode == 500 && r.content == NoResponseText
    ensures t.Raised? && t.errorResponse.Some? && Truthy(t.errorResponse.value) ==>
      r.statusCode == t.errorResponse.value.statusCode && r.content == t.errorResponse.value.text
  {
    var raisedResponse: Option<Response> :=
      match t
      case Received(response) =>
        if Truthy(response) then None
        // raise_for_status raised HTTPError carrying this response
        else Some(response)
      case Raised(_, errorResponse) => errorResponse;
    if t.Received? && Truthy(t.response) then
      ContentResponse(url, StatusOk, filePath)
    else if raisedResponse.Some? && Truthy(raisedResponse.value) then
      ContentResponse(url, raisedResponse.value.statusCode, raisedResponse.value.text)
    else
      ContentResponse(url, InternalServerError, NoResponseText)
  }

  /** A `download` that met an error status loses that status: whatever the
      server answered, the result is the 500 failure. */
  lemma DownloadErrorStatusIsFailure(url: string, filePath: string, response: Response)
    requires !Truthy(response)
    ensures IsFailure(Download(url, filePath, Received(response)))
    ensures Download(url, filePath, Received(response)).statusCode == 500
  {
  }

  /** A `download` succeeds exactly when the GET returned a 2xx/3xx response
      or raised with a response that is truthy and not a bad-request status. */
  lemma {:induction false} DownloadSuccessIff(url: string, filePath: string, t: Transport)
    ensures IsSuccess(Download(url, filePath, t)) <==>
      (t.Received? && Truthy(t.response)) ||
      (t.Raised? && t.errorResponse.Some? && Truthy(t.errorResponse.value)
       && t.errorResponse.value.statusCode !in BadRequests)
  {
    var r := Download(url, filePath, t);
    if t.Raised? && t.errorResponse.Some? && Truthy(t.errorResponse.value) {
      assert r.statusCode == t.errorResponse.value.statusCode;
    } else if !(t.Received? && Truthy(t.response)) {
      assert r.statusCode == 500;
    }
  }

  /** A listing fetch reports failure exactly when the status it recorded
      (the server's, or the handler's default) is a bad-request status; for a
      raised exception without response this is always the case. */
  lemma FetchWithoutResponseIsFailure(url: string, k: ExceptionClass)
    ensures IsFailure(FetchUrlContent(url, Raised(k, None)))
  {
  }

  // ---------------------------------------------------------------------
  // The retry policy: stop_after_attempt(3), retry_if_exception_type(RequestException)

  const MaxAttempts := 3

  /** What one call of the decorated function did: returned a value, or
      raised; `isRequestException` says whether the retry predicate accepts
      the exception. */
  datatype Attempt<T> = Returned(value: T) | RaisedOut(isRequestException: bool)

  /** The end of a tenacity-managed call: the value returned, an exception
      passed through because the retry predicate rejected it, or the
      `RetryError` raised once the stop condition was reached. */
  datatype RetryOutcome<T> =
    | Done(value: T, attempts: nat)
    | PassedThrough(attempts: nat)
    | GaveUp(attempts: nat)
  {
    function Attempts(): nat {
      match this
      case Done(_, n) => n
      case PassedThrough(n) => n
      case GaveUp(n) => n
    }
  }

  /** Runs attempts `n`, `n + 1`, ... where `attempt(k)` is what the `k`-th
      call does. Waits between attempts are time only and are not modelled. */
  function RetryFrom<T>(attempt: nat -> Attempt<T>, n: nat): (r: RetryOutcome<T>)
    requires 1 <= n <= MaxAttempts
    ensures n <= r.Attempts() <= MaxAttempts
    ensures forall k: nat :: n <= k < r.Attempts() ==> attempt(k) == RaisedOut(true)
    ensures r.Done? ==> attempt(r.Attempts()) == Returned(r.value)
    ensures r.PassedThrough? ==> attempt(r.Attempts()) == RaisedOut(false)
    ensures r.GaveUp? ==> r.Attempts() == MaxAttempts && attempt(MaxAttempts) == RaisedOut(true)
    decreases MaxAttempts - n
  {
    match attempt(n)
    case Returned(v) => Done(v, n)
    case RaisedOut(retriable) =>
      if !retriable then PassedThrough(n)
      else if n >= MaxAttempts then GaveUp(n)
      else RetryFrom(attempt, n + 1)
  }

  /** The decorated call: every attempt before the last raised a request
      exception, and the last one decides the outcome. */
  function Retry<T>(attempt: nat -> Attempt<T>): (r: RetryOutcome<T>)
    ensures 1 <= r.Attempts() <= MaxAttempts
    ensures forall k: nat :: 1 <= k < r.Attempts() ==> attempt(k) == RaisedOut(true)
    ensures r.Done? ==> attempt(r.Attempts()) == Returned(r.value)
    ensures r.PassedThrough? ==> attempt(r.Attempts()) == RaisedOut(false)
    ensures r.GaveUp? ==> r.Attempts() == MaxAttempts && attempt(MaxAttempts) == RaisedOut(true)
  {
    RetryFrom(attempt, 1)
  }

  /** The decorated `download`, where `transportAt(k)` is the outcome of the
      GET made by the `k`-th attempt. `download` catches every request
      exception itself, so the retry policy never fires: exactly one attempt
      is made, and its result is returned, whatever later attempts would
      have done. */
  function DownloadWithRetry(url: string, filePath: string, transportAt: nat -> Transport): (r: RetryOutcome<ContentResponse>)
    ensures r == Done(Download(url, filePath, transportAt(1)), 1)
  {
    Retry((k: nat) => Returned(Download(url, filePath, transportAt(k))))
  }

  /** A first attempt that meets a connection error without response ends
      the call with the 500 failure, even when the second GET would have
      succeeded. */
  lemma TransientFailureIsFinal(url: string, filePath: string, transportAt: nat -> Transport)
    requires transportAt(1) == Raised(ConnectionErrorClass, None)
    requires transportAt(2) == Received(Response(200, "body"))
    ensures DownloadWithRetry(url, filePath, transportAt).Done?
    ensures IsFailure(DownloadWithRetry(url, filePath, transportAt).value)
  {
  }

  /** The policy itself does retry request exceptions, up to three attempts. */
  lemma {:induction false} RetryGivesUpAfterThree<T>(attempt: nat -> Attempt<T>)
    requires forall k: nat :: 1 <= k <= MaxAttempts ==> attempt(k) == RaisedOut(true)
    ensures Retry(attempt) == GaveUp(3)
  {
    assert attempt(1) == RaisedOut(true);
    assert attempt(2) == RaisedOut(true);
    assert attempt(3) == RaisedOut(true);
  }
}
