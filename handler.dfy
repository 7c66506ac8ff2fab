/** The user service's `GlobalExceptionHandler`: which HTTP status, error code and message each
    exception becomes. */
module Handler {
  import opened Wrappers
  import opened Text
  import opened Exceptions

  /** The JSON error body: `ErrorResponse(status, code, message)`. */
  datatype ErrorResponse = ErrorResponse(status: int, code: string, message: Option<string>)

  /** A `ResponseEntity`: the HTTP status line and the body. The base class answers with an
      RFC 9457 problem-detail body instead, whose status repeats the status line and which has
      no `code` field. */
  datatype Response =
    | Response(status: int, body: ErrorResponse)
    | ProblemDetail(status: int)

  /** The remote statuses that are passed on as they are. */
  const PassedThrough: set<int> := {400, 401, 403, 404, 408, 429, 503, 504}

  /** `determineHttpStatus`: a remote status among the passed-through ones is kept, any other
      becomes 500. */
  function DetermineHttpStatus(code: int): (s: int)
    ensures s in PassedThrough || s == 500
    ensures s == code <==> code in PassedThrough || code == 500
  {
    if code in PassedThrough then code else 500
  }

  /** Mapping a status that has already been mapped changes nothing. */
  lemma DetermineHttpStatusIdempotent(code: int)
    ensures DetermineHttpStatus(DetermineHttpStatus(code)) == DetermineHttpStatus(code)
  {
  }

  /** `extractServiceName`. */
  function ExtractServiceName(message: Option<string>): (name: string)
    ensures name == "Email Notification Service" <==> message.Some? && Contains(message.value, "email-notification-service")
    ensures name != "Email Notification Service" ==> name == "External Service"
  {
    if message.Some? && Contains(message.value, "email-notification-service") then "Email Notification Service"
    else "External Service"
  }

  /** A response whose status line and body agree. */
  function Reply(status: int, code: string, message: string): (r: Response)
    ensures r.Response?
    ensures r.status == status && r.body.status == status
    ensures r.body.code == code && r.body.message == Some(message)
  {
    Response(status, ErrorResponse(status, code, Some(message)))
  }

  /** `handleFeignException`. */
  function HandleFeign(status: int, message: Option<string>): (r: Response)
    ensures r.Response?
    ensures r.status == DetermineHttpStatus(status) && r.body.status == r.status
    ensures r.body.code == "EXTERNAL_SERVICE_ERROR"
    ensures r.body.message == Some("Service '" + ExtractServiceName(message) + "' temporarily unavailable")
  {
    Reply(DetermineHttpStatus(status), "EXTERNAL_SERVICE_ERROR",
      "Service '" + ExtractServiceName(message) + "' temporarily unavailable")
  }

  /** `handleCircuitBreakerOpen`: the same answer whatever the exception says. */
  function HandleCircuitBreakerOpen(): (r: Response)
    ensures r.Response?
    ensures r.status == 503 && r.body.status == 503 && r.body.code == "CIRCUIT_BREAKER_OPEN"
    ensures r.body.message == Some("Service temporarily unavailable due to high error rate")
  {
    Reply(503, "CIRCUIT_BREAKER_OPEN", "Service temporarily unavailable due to high error rate")
  }

  /** `handleUserNotFound`: the exception's message is passed through, null included. */
  function HandleUserNotFound(message: Option<string>): (r: Response)
    ensures r.Response?
    ensures r.status == 404 && r.body.status == 404 && r.body.code == "NOT_FOUND"
    ensures r.body.message == message
  {
    Response(404, ErrorResponse(404, "NOT_FOUND", message))
  }

  /** `handleConstraintViolation`: the first violation as `path: message`, or "Validation failed"
      when there is none. */
  function HandleConstraintViolation(violations: seq<Violation>): (r: Response)
    ensures r.Response?
    ensures r.status == 400 && r.body.status == 400 && r.body.code == "VALIDATION_ERROR"
    ensures violations == [] ==> r.body.message == Some("Validation failed")
    ensures violations != [] ==> r.body.message == Some(violations[0].propertyPath + ": " + violations[0].message)
  {
    var message := if violations == [] then "Validation failed"
      else violations[0].propertyPath + ": " + violations[0].message;
    Reply(400, "VALIDATION_ERROR", message)
  }

  /** The store's message speaks of a unique constraint, in English or in Russian. */
  predicate MentionsUnique(message: Option<string>) {
    message.Some? && (Contains(ToLower(message.value), "unique") || Contains(ToLower(message.value), "уник"))
  }

  /** `handleDataIntegrityViolation`: always 409; a unique-constraint message is reported as a
      duplicate email, anything else (a null message included) as a generic conflict. */
  function HandleDataIntegrityViolation(message: Option<string>): (r: Response)
    ensures r.Response?
    ensures r.status == 409 && r.body.status == 409 && r.body.code == "CONFLICT"
    ensures r.body.message == Some("Email already exists") <==> MentionsUnique(message)
    ensures !MentionsUnique(message) ==> r.body.message == Some("Data conflict occurred")
  {
    Reply(409, "CONFLICT", if MentionsUnique(message) then "Email already exists" else "Data conflict occurred")
  }

  /** The letter case of the store's message does not matter. */
  lemma DataIntegrityIgnoresCase(message: string)
    ensures HandleDataIntegrityViolation(Some(ToLower(message))) == HandleDataIntegrityViolation(Some(message))
  {
    ToLowerIdempotent(message);
  }

  /** `handleMethodArgumentNotValid`: the body always says 400 and quotes the first field error's
      default message ("Validation failed" when there is no field error or it has no default
      message); the status line is the one the framework passes in. */
  function HandleMethodArgumentNotValid(fieldErrorMessages: seq<Option<string>>, status: int): (r: Response)
    ensures r.Response?
    ensures r.status == status && r.body.status == 400 && r.body.code == "VALIDATION_ERROR"
    ensures fieldErrorMessages != [] && fieldErrorMessages[0].Some? ==> r.body.message == fieldErrorMessages[0]
    ensures !(fieldErrorMessages != [] && fieldErrorMessages[0].Some?) ==> r.body.message == Some("Validation failed")
  {
    var message := if fieldErrorMessages != [] && fieldErrorMessages[0].Some? then fieldErrorMessages[0].value
      else "Validation failed";
    Response(status, ErrorResponse(400, "VALIDATION_ERROR", Some(message)))
  }

  /** `handleAllExceptions`: never reveals the exception's message. */
  function HandleAllExceptions(): (r: Response)
    ensures r.Response?
    ensures r.status == 500 && r.body.status == 500 && r.body.code == "INTERNAL_ERROR"
    ensures r.body.message == Some("Internal server error")
  {
    Reply(500, "INTERNAL_ERROR", "Internal server error")
  }

  /** The status `ResponseEntityExceptionHandler` gives each Spring MVC exception it handles. */
  function FrameworkStatus(e: MvcError): (s: int)
    ensures 400 <= s < 600
    ensures s < 500 <==> !(e.MissingPathVariable? || e.ConversionNotSupported? || e.MessageNotWritable?
                           || e.MethodValidation? || e.AsyncRequestTimeout?)
    ensures e.TypeMismatch? || e.MessageNotReadable? || e.MissingParameter? || e.HandlerMethodValidation? ==> s == 400
  {
    match e
    case MethodNotSupported => 405
    case MediaTypeNotSupported => 415
    case MediaTypeNotAcceptable => 406
    case MissingPathVariable => 500
    case MissingParameter => 400
    case TypeMismatch => 400
    case MessageNotReadable => 400
    case HandlerMethodValidation => 400
    case NoHandlerFound => 404
    case AsyncRequestTimeout => 503
    case MaxUploadSizeExceeded => 413
    case ConversionNotSupported => 500
    case MessageNotWritable => 500
    case MethodValidation => 500
  }

  /** The handler the framework picks for an exception: the base class's own handler for a
      Spring MVC exception, the overridden `handleMethodArgumentNotValid` with the exception's
      status 400, the one declared for its class, else the catch-all. */
  function Dispatch(ex: Exception): Response {
    match ex
    case FeignError(status, message) => HandleFeign(status, message)
    case CallNotPermitted(_) => HandleCircuitBreakerOpen()
    case UserNotFound(message) => HandleUserNotFound(message)
    case ConstraintViolation(violations) => HandleConstraintViolation(violations)
    case DataIntegrityViolation(message) => HandleDataIntegrityViolation(message)
    case MethodArgumentNotValid(messages) => HandleMethodArgumentNotValid(messages, 400)
    case Framework(e) => ProblemDetail(FrameworkStatus(e))
    case IllegalArgument(_) => HandleAllExceptions()
    case Unexpected(_) => HandleAllExceptions()
  }

  lemma DispatchDataIntegrity(message: Option<string>)
    ensures Dispatch(DataIntegrityViolation(message)) == HandleDataIntegrityViolation(message)
  {
  }

  /** Exactly the Spring MVC exceptions get a problem-detail body; every other answer is an
      error record whose status equals the status line. */
  lemma DispatchStatusAgrees(ex: Exception)
    ensures Dispatch(ex).ProblemDetail? <==> ex.Framework?
    ensures Dispatch(ex).Response? ==> Dispatch(ex).body.status == Dispatch(ex).status
  {
  }

  /** Only a missing user is reported with the code NOT_FOUND, and an open breaker is told apart
      from it by both status and code. */
  lemma DispatchCodes(ex: Exception)
    ensures Dispatch(ex).Response? && Dispatch(ex).body.code == "NOT_FOUND" <==> ex.UserNotFound?
    ensures Dispatch(ex).Response? && Dispatch(ex).body.code == "CIRCUIT_BREAKER_OPEN" <==> ex.CallNotPermitted?
    ensures ex.CallNotPermitted? ==> Dispatch(ex).status == 503
    ensures ex.UserNotFound? ==> Dispatch(ex).status == 404 && Dispatch(ex).body.message == ex.message
    ensures ex.IllegalArgument? || ex.Unexpected? ==> Dispatch(ex) == Reply(500, "INTERNAL_ERROR", "Internal server error")
    ensures ex.Framework? ==> Dispatch(ex) == ProblemDetail(FrameworkStatus(ex.error))
  {
  }

  /** Every answer the handler gives is an error status. */
  lemma DispatchIsError(ex: Exception)
    ensures 400 <= Dispatch(ex).status < 600
  {
  }

  /** A malformed request (a path id that is not a number, a body that is not the payload's
      JSON, a missing parameter) is a client error answered 400 by the base class; it never
      reaches the catch-all's 500. */
  lemma MalformedRequestIsClientError(e: MvcError)
    requires e.TypeMismatch? || e.MessageNotReadable? || e.MissingParameter?
    ensures Dispatch(Framework(e)) == ProblemDetail(400)
    ensures Dispatch(Framework(e)) != HandleAllExceptions()
  {
  }
}
