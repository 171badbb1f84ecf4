/**
 * The exceptions that the services, the token provider and the JDK throw
 * and that reach `GlobalExceptionHandler.java`, as one datatype.
 */
module Errors {
  import opened Text

  /** One entry of a `BindingResult`: the field and its default message (may be null in Java). */
  datatype FieldError = FieldError(field: string, defaultMessage: string)

  datatype Exception =
    /** `ResourceNotFoundException(resourceName, fieldName, fieldValue)` */
    | ResourceNotFound(resourceName: string, fieldName: string, fieldValue: string)
    /** `IllegalArgumentException`: duplicate names, invalid page requests, bad sublist bounds */
    | IllegalArgument(message: string)
    /** `IndexOutOfBoundsException` raised by `List.subList` */
    | IndexOutOfBounds(message: string)
    /** `NullPointerException`, with the JDK's helpful message */
    | NullPointer(message: string)
    /** `MethodArgumentNotValidException`: the request failed Bean Validation */
    | MethodArgumentNotValid(fieldErrors: seq<FieldError>)
    /** `BusinessException` */
    | Business(message: string)
    /** `JwtAuthenticationException`, raised by `validateTokenFormat` */
    | JwtAuthentication(message: string)
    /** A `JwtException` of the jjwt parser that no `catch` translates */
    | JwtParse(message: string)
  {
    /** `getMessage()`. */
    function Message(): string {
      match this
      case ResourceNotFound(r, f, v) => r + " not found with " + f + " : '" + v + "'"
      case IllegalArgument(m) => m
      case IndexOutOfBounds(m) => m
      case NullPointer(m) => m
      case MethodArgumentNotValid(_) => "Validation failed"
      case Business(m) => m
      case JwtAuthentication(m) => m
      case JwtParse(m) => m
    }
  }

  /** `new ResourceNotFoundException(resource, "id", id)` for a numeric id. */
  function NotFoundById(resource: string, id: int): (e: Exception)
    ensures e.ResourceNotFound? && e.resourceName == resource && e.fieldName == "id"
  {
    ResourceNotFound(resource, "id", IntToString(id))
  }
}
