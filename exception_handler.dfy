/** The global exception handler: every exception that escapes a controller
    becomes an HTTP status and a small string-to-string body. A message that
    may be null is an Option. */
module ExceptionHandling {
  import Common

  type Option<T> = Common.Option<T>

  const ErrorKey := "error"
  const DataIntegrityPrefix := "Data integrity violation: "

  /** A field-level validation error: the field and its default message. */
  datatype FieldError = FieldError(field: string, defaultMessage: Option<string>)

  /** The exceptions the handler distinguishes; a data-integrity violation
      carries the message of its most specific cause. */
  datatype Exception =
    | MethodArgumentNotValid(errors: seq<FieldError>)
    | DuplicateResourceException(message: Option<string>)
    | DataIntegrityViolation(causeMessage: Option<string>)
    | InvalidValueException(message: Option<string>)
    | ResourceNotFoundException(message: Option<string>)
    | SecurityException(message: Option<string>)
    | AccessDeniedException(message: Option<string>)
    | OtherRuntimeException(message: Option<string>)

  datatype HttpStatus = BadRequest | Forbidden | NotFound | Conflict | InternalServerError
  {
    function Code(): (c: int)
      ensures 400 <= c <= 599
    {
      match this
      case BadRequest => 400
      case Forbidden => 403
      case NotFound => 404
      case Conflict => 409
      case InternalServerError => 500
    }
  }

  datatype Response = Response(status: HttpStatus, body: map<string, Option<string>>)

  /** The exception a service error is raised as, with its message. */
  function Raised(error: Common.Error, message: string): Exception
  {
    match error
    case InvalidValue => InvalidValueException(Common.Some(message))
    case DuplicateResource => DuplicateResourceException(Common.Some(message))
    case NotFound => ResourceNotFoundException(Common.Some(message))
    case Security => SecurityException(Common.Some(message))
  }

  /** The status each handler answers with. */
  function StatusOf(e: Exception): (s: HttpStatus)
    ensures s.Code() < 500 <==> !e.OtherRuntimeException?
  {
    match e
    case MethodArgumentNotValid(_) => BadRequest
    case DuplicateResourceException(_) => Conflict
    case DataIntegrityViolation(_) => Conflict
    case InvalidValueException(_) => BadRequest
    case ResourceNotFoundException(_) => NotFound
    case SecurityException(_) => Forbidden
    case AccessDeniedException(_) => Forbidden
    case OtherRuntimeException(_) => InternalServerError
  }

  /** Java string concatenation of a possibly null message. */
  function ConcatMessage(prefix: string, message: Option<string>): string
  {
    prefix + (if message.Some? then message.value else "null")
  }

  /** The field errors put into a map one after another; a later error for a
      field overwrites an earlier one. */
  function FieldErrorMap(errors: seq<FieldError>): (r: map<string, Option<string>>)
    ensures errors != [] ==>
      var last := errors[|errors| - 1];
      last.field in r && r[last.field] == last.defaultMessage
  {
    if errors == [] then map[]
    else
      var last := errors[|errors| - 1];
      FieldErrorMap(errors[..|errors| - 1])[last.field := last.defaultMessage]
  }

  /** The handlers' answers. */
  function Handle(e: Exception): (r: Response)
    ensures r.status == StatusOf(e)
    ensures !e.MethodArgumentNotValid? ==> r.body.Keys == {ErrorKey}
  {
    match e
    case MethodArgumentNotValid(errors) => Response(BadRequest, FieldErrorMap(errors))
    case DataIntegrityViolation(cause) =>
      Response(Conflict, map[ErrorKey := Common.Some(ConcatMessage(DataIntegrityPrefix, cause))])
    case _ => Response(StatusOf(e), map[ErrorKey := e.message])
  }

  /** The field-error map has a key for exactly the fields that have an error. */
  lemma {:induction false} FieldErrorMapKeys(errors: seq<FieldError>)
    ensures FieldErrorMap(errors).Keys == set i | 0 <= i < |errors| :: errors[i].field
    decreases |errors|
  {
    if errors != [] {
      var n := |errors| - 1;
      var front := errors[..n];
      FieldErrorMapKeys(front);
      var fields := set i | 0 <= i < |errors| :: errors[i].field;
      var frontFields := set i | 0 <= i < |front| :: front[i].field;
      assert fields == frontFields + {errors[n].field} by {
        forall f | f in fields ensures f in frontFields + {errors[n].field} {
          var i :| 0 <= i < |errors| && errors[i].field == f;
          if i < n {
            assert front[i].field == f;
          }
        }
        forall f | f in frontFields ensures f in fields {
          var i :| 0 <= i < |front| && front[i].field == f;
          assert errors[i].field == f;
        }
        assert errors[n].field in fields;
      }
      assert FieldErrorMap(errors).Keys == FieldErrorMap(front).Keys + {errors[n].field};
    }
  }

  /** Each field maps to the message of its last error: a later error for
      the same field wins. */
  lemma {:induction false} FieldErrorMapLastWins(errors: seq<FieldError>)
    ensures forall i :: 0 <= i < |errors| && (forall j :: i < j < |errors| ==> errors[j].field != errors[i].field) ==>
      errors[i].field in FieldErrorMap(errors) && FieldErrorMap(errors)[errors[i].field] == errors[i].defaultMessage
    decreases |errors|
  {
    if errors != [] {
      var n := |errors| - 1;
      var front := errors[..n];
      FieldErrorMapLastWins(front);
      forall i | 0 <= i < |errors| && (forall j :: i < j < |errors| ==> errors[j].field != errors[i].field)
        ensures errors[i].field in FieldErrorMap(errors)
        ensures FieldErrorMap(errors)[errors[i].field] == errors[i].defaultMessage
      {
        if i < n {
          assert front[i] == errors[i];
          assert errors[n].field != errors[i].field;
          assert forall j :: i < j < |front| ==> front[j].field != front[i].field;
        }
      }
    }
  }

  /** Two errors for one field leave only the second message. */
  lemma LaterFieldErrorWins(field: string, first: Option<string>, second: Option<string>)
    ensures FieldErrorMap([FieldError(field, first), FieldError(field, second)]) == map[field := second]
  {
    var errors := [FieldError(field, first), FieldError(field, second)];
    assert errors[..1] == [FieldError(field, first)];
    assert errors[..1][..0] == [];
    assert FieldErrorMap(errors[..1]) == map[field := first];
    assert map[field := first][field := second] == map[field := second];
  }

  /** handleValidationExceptions: the errors are put into the map in order,
      and the answer is 400 with that map. */
  method HandleValidationExceptions(errors: seq<FieldError>) returns (response: Response)
    ensures response == Handle(MethodArgumentNotValid(errors))
  {
    var body: map<string, Option<string>> := map[];
    for i := 0 to |errors|
      invariant body == FieldErrorMap(errors[..i])
    {
      assert errors[..i + 1][..i] == errors[..i];
      body := body[errors[i].field := errors[i].defaultMessage];
    }
    assert errors[..|errors|] == errors;
    response := Response(BadRequest, body);
  }

  /** Which exceptions get which status: 400 for validation and invalid
      values, 403 for security and access-denied, 404 for a missing
      resource, 409 for duplicates and integrity violations, and 500 for
      everything else. Every answer but the validation one has exactly the
      "error" key, carrying the exception's message. */
  lemma HandleClassifies(e: Exception)
    ensures Handle(e).status == StatusOf(e)
    ensures Handle(e).status.Code() == 400 <==> e.MethodArgumentNotValid? || e.InvalidValueException?
    ensures Handle(e).status.Code() == 403 <==> e.SecurityException? || e.AccessDeniedException?
    ensures Handle(e).status.Code() == 404 <==> e.ResourceNotFoundException?
    ensures Handle(e).status.Code() == 409 <==> e.DuplicateResourceException? || e.DataIntegrityViolation?
    ensures Handle(e).status.Code() == 500 <==> e.OtherRuntimeException?
    ensures !e.MethodArgumentNotValid? ==> Handle(e).body.Keys == {ErrorKey}
    ensures !e.MethodArgumentNotValid? && !e.DataIntegrityViolation? ==>
      Handle(e).body[ErrorKey] == e.message
    ensures e.DataIntegrityViolation? ==>
      var text := Handle(e).body[ErrorKey].value;
      |DataIntegrityPrefix| <= |text| && text[..|DataIntegrityPrefix|] == DataIntegrityPrefix
  {
  }

  /** A service error always becomes a client error (4xx), never a server
      error, and different service errors get different statuses, so a
      forbidden access is never reported as a missing resource. */
  lemma ServiceErrorsAreDistinctClientErrors(a: Common.Error, b: Common.Error, m: string, n: string)
    ensures 400 <= Handle(Raised(a, m)).status.Code() < 500
    ensures Handle(Raised(a, m)).status == Handle(Raised(b, n)).status ==> a == b
    ensures Handle(Raised(a, m)).body == map[ErrorKey := Common.Some(m)]
  {
  }
}
