/** The exceptions the user service throws or lets through, as the variants its
    `GlobalExceptionHandler` tells apart. */
module Exceptions {
  import opened Wrappers

  /** One bean-validation violation: its property path and message. */
  datatype Violation = Violation(propertyPath: string, message: string)

  /** The Spring MVC exceptions that `ResponseEntityExceptionHandler`, the handler's base class,
      answers with handlers of its own; a handler declared for `Exception` never sees them,
      because the framework picks the handler for the closest exception type. */
  datatype MvcError =
    /** `HttpRequestMethodNotSupportedException`: a verb the path does not map. */
    | MethodNotSupported
    /** `HttpMediaTypeNotSupportedException`: a request body of a content type nobody reads. */
    | MediaTypeNotSupported
    /** `HttpMediaTypeNotAcceptableException`: no representation the client accepts. */
    | MediaTypeNotAcceptable
    /** `MissingPathVariableException`: a server-side mapping fault. */
    | MissingPathVariable
    /** `MissingServletRequestParameterException`, `MissingServletRequestPartException` and
        other `ServletRequestBindingException`s. */
    | MissingParameter
    /** `TypeMismatchException`, e.g. `GET /api/users/abc` for a `Long` id. */
    | TypeMismatch
    /** `HttpMessageNotReadableException`: a body that is not JSON or does not fit the payload,
        e.g. `{"age": "abc"}`. */
    | MessageNotReadable
    /** `HandlerMethodValidationException`: a constraint on a handler parameter. */
    | HandlerMethodValidation
    /** `NoHandlerFoundException` and `NoResourceFoundException`: no mapping for the path. */
    | NoHandlerFound
    /** `AsyncRequestTimeoutException`. */
    | AsyncRequestTimeout
    /** `MaxUploadSizeExceededException`. */
    | MaxUploadSizeExceeded
    /** `ConversionNotSupportedException`: no converter for a handler argument. */
    | ConversionNotSupported
    /** `HttpMessageNotWritableException`: the response cannot be serialised. */
    | MessageNotWritable
    /** `MethodValidationException`: a constraint on a return value. */
    | MethodValidation

  datatype Exception =
    /** `FeignException` from a call to another service: the remote status and the message. */
    | FeignError(status: int, message: Option<string>)
    /** resilience4j `CallNotPermittedException`: the breaker is open. */
    | CallNotPermitted(message: Option<string>)
    /** The service's `UserNotFoundException`. */
    | UserNotFound(message: Option<string>)
    /** `ConstraintViolationException` from bean validation outside request binding, such as
        method validation or the validation of an entity the store is about to write. */
    | ConstraintViolation(violations: seq<Violation>)
    /** `DataIntegrityViolationException` from the store, e.g. a duplicate email. */
    | DataIntegrityViolation(message: Option<string>)
    /** `MethodArgumentNotValidException` from validating a bound handler argument: the request
        body or the query-parameter object. It carries the default message of each field error
        (null when the constraint has none); its status code is always 400. */
    | MethodArgumentNotValid(fieldErrorMessages: seq<Option<string>>)
    /** A Spring MVC exception the base class answers itself. */
    | Framework(error: MvcError)
    /** `IllegalArgumentException`, e.g. from building a page request. */
    | IllegalArgument(reason: string)
    /** Any other exception, a `NullPointerException` among them. */
    | Unexpected(message: Option<string>)
}
