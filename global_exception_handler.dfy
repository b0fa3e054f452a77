/**
 * The global exception handler: every failure kind the API can raise is
 * turned into an HTTP status and an error body with a fixed code. The
 * timestamp and request path of the body, and the logging, are not modelled.
 */
module ErrorHandling {
  import opened Wrappers
  import opened UserDtos

  /** The exceptions the handler distinguishes, with what it reads from each. */
  datatype Failure =
    | UserNotFound(message: Option<string>)
    | UserAlreadyExists(message: Option<string>)
    | ArgumentNotValid(fieldErrors: seq<Violation>)
    | PropertyReference(propertyName: string)
    | IllegalArgument(message: Option<string>)
    | Unexpected(message: Option<string>)

  datatype FieldError = FieldError(field: string, rejectedValue: string, message: string)

  datatype ErrorBody =
    | ErrorResponse(code: string, message: string)
    | ValidationErrorResponse(code: string, message: string, fieldErrors: seq<FieldError>)

  datatype ErrorReply = ErrorReply(status: int, body: ErrorBody)

  const NotFoundStatus := 404
  const ConflictStatus := 409
  const BadRequestStatus := 400
  const InternalServerErrorStatus := 500

  const GenericMessage := "An unexpected error occurred"
  const InvalidValueMessage := "Invalid value"

  /**
   * One field error per binding error, in the same order, each copying the
   * field and rejected value; a missing message becomes "Invalid value".
   */
  function FieldErrors(vs: seq<Violation>): (fes: seq<FieldError>)
    ensures |fes| == |vs|
    ensures forall i | 0 <= i < |vs| ::
      && fes[i].field == vs[i].field
      && fes[i].rejectedValue == vs[i].rejectedValue
      && fes[i].message == (if vs[i].message.Some? then vs[i].message.value else InvalidValueMessage)
  {
    if vs == [] then
      []
    else
      [FieldError(vs[0].field, vs[0].rejectedValue, vs[0].message.GetOr(InvalidValueMessage))] + FieldErrors(vs[1..])
  }

  function HandleUserNotFound(message: Option<string>): ErrorReply {
    ErrorReply(NotFoundStatus, ErrorResponse("USER_NOT_FOUND", message.GetOr("User not found")))
  }

  function HandleUserAlreadyExists(message: Option<string>): ErrorReply {
    ErrorReply(ConflictStatus, ErrorResponse("USER_ALREADY_EXISTS", message.GetOr("User already exists")))
  }

  function HandleValidation(vs: seq<Violation>): ErrorReply {
    ErrorReply(BadRequestStatus,
      ValidationErrorResponse("VALIDATION_ERROR", "Validation failed for one or more fields", FieldErrors(vs)))
  }

  const InvalidSortPrefix := "Invalid sort property: "

  /** The message names the rejected property right after a fixed prefix. */
  function PropertyReferenceMessage(propertyName: string): (m: string)
    ensures |m| > |InvalidSortPrefix| + |propertyName|
    ensures m[..|InvalidSortPrefix|] == InvalidSortPrefix
    ensures m[|InvalidSortPrefix|..|InvalidSortPrefix| + |propertyName|] == propertyName
  {
    var m := InvalidSortPrefix + propertyName + ". Valid properties are: id, email, name, password";
    assert m[|InvalidSortPrefix|..|InvalidSortPrefix| + |propertyName|] == propertyName;
    m
  }

  function HandlePropertyReference(propertyName: string): ErrorReply {
    ErrorReply(BadRequestStatus, ErrorResponse("INVALID_SORT_PROPERTY", PropertyReferenceMessage(propertyName)))
  }

  function HandleIllegalArgument(message: Option<string>): ErrorReply {
    ErrorReply(BadRequestStatus, ErrorResponse("INVALID_ARGUMENT", message.GetOr("Invalid argument provided")))
  }

  /** The catch-all handler; the exception's own message is only logged. */
  function HandleGeneric(message: Option<string>): ErrorReply {
    ErrorReply(InternalServerErrorStatus, ErrorResponse("INTERNAL_SERVER_ERROR", GenericMessage))
  }

  /** The handler Spring selects for each failure kind. */
  function Handle(f: Failure): (r: ErrorReply)
    ensures r.status in {BadRequestStatus, NotFoundStatus, ConflictStatus, InternalServerErrorStatus}
    ensures r.status == InternalServerErrorStatus <==> f.Unexpected?
    ensures r.body.ValidationErrorResponse? <==> f.ArgumentNotValid?
    ensures f.UserNotFound? ==>
      && r.status == NotFoundStatus && r.body.code == "USER_NOT_FOUND"
      && r.body.message == (if f.message.Some? then f.message.value else "User not found")
    ensures f.UserAlreadyExists? ==>
      && r.status == ConflictStatus && r.body.code == "USER_ALREADY_EXISTS"
      && r.body.message == (if f.message.Some? then f.message.value else "User already exists")
    ensures f.ArgumentNotValid? ==>
      && r.status == BadRequestStatus && r.body.code == "VALIDATION_ERROR"
      && r.body.message == "Validation failed for one or more fields"
      && r.body.fieldErrors == FieldErrors(f.fieldErrors)
    ensures f.PropertyReference? ==>
      && r.status == BadRequestStatus && r.body.code == "INVALID_SORT_PROPERTY"
      && r.body.message == PropertyReferenceMessage(f.propertyName)
    ensures f.IllegalArgument? ==>
      && r.status == BadRequestStatus && r.body.code == "INVALID_ARGUMENT"
      && r.body.message == (if f.message.Some? then f.message.value else "Invalid argument provided")
    ensures f.Unexpected? ==> r.body == ErrorResponse("INTERNAL_SERVER_ERROR", GenericMessage)
  {
    match f
    case UserNotFound(m) => HandleUserNotFound(m)
    case UserAlreadyExists(m) => HandleUserAlreadyExists(m)
    case ArgumentNotValid(vs) => HandleValidation(vs)
    case PropertyReference(p) => HandlePropertyReference(p)
    case IllegalArgument(m) => HandleIllegalArgument(m)
    case Unexpected(m) => HandleGeneric(m)
  }

  /** The reply to an unexpected failure does not depend on its message. */
  lemma GenericHidesMessage(m1: Option<string>, m2: Option<string>)
    ensures Handle(Unexpected(m1)) == Handle(Unexpected(m2))
  {
  }

  /** The error code alone tells which kind of failure occurred. */
  lemma CodeIdentifiesKind(f: Failure, g: Failure)
    requires Handle(f).body.code == Handle(g).body.code
    ensures f.UserNotFound? == g.UserNotFound? && f.UserAlreadyExists? == g.UserAlreadyExists?
    ensures f.ArgumentNotValid? == g.ArgumentNotValid? && f.PropertyReference? == g.PropertyReference?
    ensures f.IllegalArgument? == g.IllegalArgument? && f.Unexpected? == g.Unexpected?
  {
  }

  /** The validation reply lists the violations' messages one-to-one and in order. */
  lemma ValidationReplyCopiesMessages(vs: seq<Violation>, i: nat)
    requires i < |vs| && vs[i].message.Some?
    ensures Handle(ArgumentNotValid(vs)).body.fieldErrors[i] ==
      FieldError(vs[i].field, vs[i].rejectedValue, vs[i].message.value)
  {
  }

  /** Every violation with a message reaches the validation reply unchanged. */
  lemma ViolationReachesReply(vs: seq<Violation>, v: Violation)
    requires v in vs && v.message.Some?
    ensures FieldError(v.field, v.rejectedValue, v.message.value) in Handle(ArgumentNotValid(vs)).body.fieldErrors
  {
    var k :| 0 <= k < |vs| && vs[k] == v;
    assert FieldErrors(vs)[k] == FieldError(v.field, v.rejectedValue, v.message.value);
  }
}
