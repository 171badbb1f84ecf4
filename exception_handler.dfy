/**
 * `GlobalExceptionHandler`: the response a thrown exception becomes. The
 * most specific `@ExceptionHandler` applies: not-found is 404, a failed
 * validation and a business error are 400, and everything else is 500
 * with the exception's own message.
 */
module ExceptionHandler {
  import opened Wrappers
  import opened Errors
  import CategoryService
  import TagService

  /** `ErrorDetails`, and `ValidationErrorDetails` when `errors` is present. */
  datatype ErrorDetails = ErrorDetails(
    timestamp: int,
    message: string,
    details: string,
    errorCode: string,
    errors: Option<map<string, string>>)

  datatype Response = Response(status: int, body: ErrorDetails)

  const NotFound := 404
  const BadRequest := 400
  const InternalServerError := 500

  const ValidationFailedMessage := "验证失败"

  /**
   * The field map of the validation handler: `errors.put(field, message)`
   * for each error in order, so a later error for a field replaces an
   * earlier one.
   */
  function FieldMap(errs: seq<FieldError>): (m: map<string, string>)
    ensures forall i | 0 <= i < |errs| :: errs[i].field in m
    ensures forall f | f in m :: exists i :: 0 <= i < |errs| && errs[i].field == f
  {
    if errs == [] then map[]
    else
      var last := errs[|errs| - 1];
      var m := FieldMap(errs[..|errs| - 1]);
      assert forall i | 0 <= i < |errs| - 1 :: errs[..|errs| - 1][i] == errs[i];
      m[last.field := last.defaultMessage]
  }

  /** The index of the last error of a field, if any. */
  function LastIndexOf(errs: seq<FieldError>, f: string): (i: int)
    ensures -1 <= i < |errs|
    ensures i >= 0 ==> errs[i].field == f && forall j | i < j < |errs| :: errs[j].field != f
    ensures i == -1 ==> forall j | 0 <= j < |errs| :: errs[j].field != f
  {
    if errs == [] then -1
    else if errs[|errs| - 1].field == f then |errs| - 1
    else LastIndexOf(errs[..|errs| - 1], f)
  }

  /** The last error reported for a field wins. */
  lemma {:induction false} FieldMapLastWins(errs: seq<FieldError>, f: string)
    requires f in FieldMap(errs)
    ensures LastIndexOf(errs, f) >= 0
    ensures FieldMap(errs)[f] == errs[LastIndexOf(errs, f)].defaultMessage
  {
    if errs[|errs| - 1].field != f {
      FieldMapLastWins(errs[..|errs| - 1], f);
    }
  }

  /** The `forEach` over the binding result's errors filling a `HashMap`. */
  method BuildFieldMap(errs: seq<FieldError>) returns (m: map<string, string>)
    ensures m == FieldMap(errs)
  {
    m := map[];
    var i := 0;
    while i < |errs|
      invariant 0 <= i <= |errs|
      invariant m == FieldMap(errs[..i])
    {
      assert errs[..i + 1][..i] == errs[..i];
      m := m[errs[i].field := errs[i].defaultMessage];
      i := i + 1;
    }
    assert errs[..|errs|] == errs;
  }

  /** The response of the handler that catches `e`, at time `now` for the request `description`. */
  function Handle(e: Exception, now: int, description: string): (r: Response)
    ensures e.ResourceNotFound? <==> r.status == NotFound
    ensures e.MethodArgumentNotValid? || e.Business? <==> r.status == BadRequest
    ensures r.status in {NotFound, BadRequest, InternalServerError}
    ensures r.body.timestamp == now && r.body.details == description
    ensures !e.MethodArgumentNotValid? ==> r.body.message == e.Message() && r.body.errors.None?
  {
    match e
    case ResourceNotFound(_, _, _) =>
      Response(NotFound, ErrorDetails(now, e.Message(), description, "RESOURCE_NOT_FOUND", None))
    case MethodArgumentNotValid(errs) =>
      Response(BadRequest, ErrorDetails(now, ValidationFailedMessage, description, "VALIDATION_FAILED", Some(FieldMap(errs))))
    case Business(m) =>
      Response(BadRequest, ErrorDetails(now, m, description, "BUSINESS_ERROR", None))
    case _ =>
      Response(InternalServerError, ErrorDetails(now, e.Message(), description, "INTERNAL_SERVER_ERROR", None))
  }

  /** The validation handler, with its loop; it answers what `Handle` describes. */
  method HandleMethodArgumentNotValidException(errs: seq<FieldError>, now: int, description: string) returns (r: Response)
    ensures r == Handle(MethodArgumentNotValid(errs), now, description)
    ensures r.status == BadRequest && r.body.errorCode == "VALIDATION_FAILED"
    ensures r.body.message == ValidationFailedMessage && r.body.errors == Some(FieldMap(errs))
  {
    var errors := BuildFieldMap(errs);
    r := Response(BadRequest, ErrorDetails(now, ValidationFailedMessage, description, "VALIDATION_FAILED", Some(errors)));
  }

  /** The error codes tell the four handlers apart. */
  lemma ErrorCodeClassifies(e: Exception, now: int, description: string)
    ensures var c := Handle(e, now, description).body.errorCode;
      && (c == "RESOURCE_NOT_FOUND" <==> e.ResourceNotFound?)
      && (c == "VALIDATION_FAILED" <==> e.MethodArgumentNotValid?)
      && (c == "BUSINESS_ERROR" <==> e.Business?)
      && (c == "INTERNAL_SERVER_ERROR" <==> !(e.ResourceNotFound? || e.MethodArgumentNotValid? || e.Business?))
  {
    assert "RESOURCE_NOT_FOUND"[0] == 'R' && "VALIDATION_FAILED"[0] == 'V';
    assert "BUSINESS_ERROR"[0] == 'B' && "INTERNAL_SERVER_ERROR"[0] == 'I';
  }

  /**
   * The duplicate-name `IllegalArgumentException` of the category and tag
   * services has no handler of its own: it is a 500 that shows its message.
   */
  lemma DuplicateNameIsServerError(name: string, now: int, description: string)
    ensures Handle(CategoryService.DuplicateCategory(name), now, description) ==
      Response(InternalServerError, ErrorDetails(now, "Category with name '" + name + "' already exists",
                                                 description, "INTERNAL_SERVER_ERROR", None))
    ensures Handle(TagService.DuplicateTag(name), now, description) ==
      Response(InternalServerError, ErrorDetails(now, "Tag with name '" + name + "' already exists",
                                                 description, "INTERNAL_SERVER_ERROR", None))
  {
  }
}
