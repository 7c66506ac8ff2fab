/** The email-notification service's side of the `checkEmail` call to the user service: the
    Feign error decoder, the circuit-breaker fallback, `checkEmail`, and its own exception
    handler; and the whole call made against the user service's table. */
module EmailNotification {
  import opened Wrappers
  import opened Text
  import opened Exceptions
  import opened Handler
  import opened Registry
  import opened Users

  /** The body of an error response as the decoder sees it: absent, not parseable as an error
      record, or parsed into its `code` and `message` fields (each possibly null). */
  datatype Body = NoBody | Unreadable | Json(code: Option<string>, message: Option<string>)

  /** A non-2xx response to a Feign call. */
  datatype FeignResponse = FeignResponse(status: int, body: Body)

  /** The exceptions of the email service that take part. */
  datatype ClientException =
    /** The email service's own `UserNotFoundException`. */
    | ClientUserNotFound(message: Option<string>)
    /** A `RuntimeException` with its message. */
    | ClientRuntime(reason: string)
    /** resilience4j `CallNotPermittedException`: the breaker refused the call. */
    | ClientCallNotPermitted

  /** The error decoder of `UserClientConfig`: a 404 whose body carries the code NOT_FOUND
      becomes a missing user with the body's message; every other response becomes a runtime
      exception. It always yields an exception and never throws. */
  function DecodeError(r: FeignResponse): (e: ClientException)
    ensures !e.ClientCallNotPermitted?
    ensures e.ClientUserNotFound? <==> r.status == 404 && r.body.Json? && r.body.code == Some("NOT_FOUND")
    ensures e.ClientUserNotFound? ==> e.message == r.body.message
    ensures r.body.NoBody? ==> e == ClientRuntime("No response body")
    ensures r.body.Unreadable? ==> e == ClientRuntime("Error decoding error response")
    ensures r.body.Json? && !e.ClientUserNotFound? ==> e == ClientRuntime("Unhandled error: " + JavaString(r.body.message))
  {
    match r.body
    case NoBody => ClientRuntime("No response body")
    case Unreadable => ClientRuntime("Error decoding error response")
    case Json(code, message) =>
      if r.status == 404 && code == Some("NOT_FOUND") then ClientUserNotFound(message)
      else ClientRuntime("Unhandled error: " + JavaString(message))
  }

  /** What the user service's error response looks like on the wire: the status line and the
      serialised record, whose code is never null. A problem-detail body has properties the
      record lacks, which a default `ObjectMapper` refuses to read. */
  function Transmit(r: Response): (w: FeignResponse)
    ensures w.status == r.status
    ensures r.Response? ==> w.body == Json(Some(r.body.code), r.body.message)
    ensures r.ProblemDetail? ==> w.body == Unreadable
  {
    match r
    case Response(status, body) => FeignResponse(status, Json(Some(body.code), body.message))
    case ProblemDetail(status) => FeignResponse(status, Unreadable)
  }

  /** Round trip: an exception the user service reports decodes on the email side to a missing
      user exactly when it was the user service's `UserNotFoundException`, and then with the
      same message. */
  lemma NotFoundRoundTrip(ex: Exception)
    ensures DecodeError(Transmit(Dispatch(ex))).ClientUserNotFound? <==> ex.UserNotFound?
    ensures ex.UserNotFound? ==> DecodeError(Transmit(Dispatch(ex))) == ClientUserNotFound(ex.message)
  {
    DispatchCodes(ex);
  }

  /** `fallBackCheckEmail`: it always throws. A missing user stays a missing user, but under the
      fixed message "User not found"; any other cause becomes one fixed runtime exception. */
  function FallBackCheckEmail(email: string, t: ClientException): (e: ClientException)
    ensures e.ClientUserNotFound? <==> t.ClientUserNotFound?
    ensures e.ClientUserNotFound? ==> e.message == Some("User not found")
    ensures !e.ClientUserNotFound? ==> e == ClientRuntime("From fallback: Not handled exception")
  {
    if t.ClientUserNotFound? then ClientUserNotFound(Some("User not found"))
    else ClientRuntime("From fallback: Not handled exception")
  }

  /** `checkEmail` behind the breaker: returns normally exactly when the breaker lets the call
      through and the call succeeds; any failure, the breaker's refusal included, is handed to
      the fallback. */
  function CheckEmail(email: string, breakerOpen: bool, call: Outcome<ClientException>): (r: Outcome<ClientException>)
    ensures r.Pass? <==> !breakerOpen && call.Pass?
    ensures breakerOpen ==> r == Fail(FallBackCheckEmail(email, ClientCallNotPermitted))
    ensures !breakerOpen && call.Fail? ==> r == Fail(FallBackCheckEmail(email, call.error))
  {
    if breakerOpen then Fail(FallBackCheckEmail(email, ClientCallNotPermitted))
    else match call
      case Pass => Pass
      case Fail(t) => Fail(FallBackCheckEmail(email, t))
  }

  /** The email service's `GlobalExceptionHandler`: 404 NOT_FOUND with the message for a missing
      user, 500 INTERNAL_ERROR otherwise. Its error record has the same three fields as the user
      service's. */
  function HandleEmailSide(e: ClientException): (r: Response)
    ensures r.Response?
    ensures r.body.status == r.status
    ensures r.status == 404 <==> e.ClientUserNotFound?
    ensures e.ClientUserNotFound? ==> r.body == ErrorResponse(404, "NOT_FOUND", e.message)
    ensures !e.ClientUserNotFound? ==> r.body == ErrorResponse(500, "INTERNAL_ERROR", Some("Internal server error"))
  {
    if e.ClientUserNotFound? then Response(404, ErrorResponse(404, "NOT_FOUND", e.message))
    else Response(500, ErrorResponse(500, "INTERNAL_ERROR", Some("Internal server error")))
  }

  /** The generic handler reveals nothing of the exception: all of them get the same answer. */
  lemma GenericHandlerHidesMessage(a: ClientException, b: ClientException)
    requires !a.ClientUserNotFound? && !b.ClientUserNotFound?
    ensures HandleEmailSide(a) == HandleEmailSide(b)
  {
  }

  /** The client call `checkemail` served by the user service over `rows`: a 200 when some row
      holds the email, else the handled `UserNotFoundException` decoded on the email side. */
  function RemoteCheck(rows: map<int, User>, email: string): (r: Outcome<ClientException>)
    ensures r.Pass? <==> EmailHeld(rows, Some(email))
  {
    match EmailCheck(rows, Some(email))
    case Pass => Pass
    case Fail(ex) => Fail(DecodeError(Transmit(Dispatch(ex))))
  }

  /** End to end: with the breaker closed, `checkEmail` returns normally exactly when the user
      service holds the email; otherwise the email service answers 404 NOT_FOUND "User not
      found". With the breaker open it answers 500, whatever the table holds. */
  lemma CheckEmailEndToEnd(rows: map<int, User>, email: string)
    ensures CheckEmail(email, false, RemoteCheck(rows, email)).Pass? <==> EmailHeld(rows, Some(email))
    ensures !EmailHeld(rows, Some(email)) ==>
      HandleEmailSide(CheckEmail(email, false, RemoteCheck(rows, email)).error)
        == Response(404, ErrorResponse(404, "NOT_FOUND", Some("User not found")))
    ensures HandleEmailSide(CheckEmail(email, true, RemoteCheck(rows, email)).error)
        == Response(500, ErrorResponse(500, "INTERNAL_ERROR", Some("Internal server error")))
  {
    if !EmailHeld(rows, Some(email)) {
      var ex := EmailCheck(rows, Some(email)).error;
      NotFoundRoundTrip(ex);
    }
  }
}
