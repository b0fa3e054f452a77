# User management core, modelled in Dafny

This project models the business core of a Kotlin/Spring user-management
HTTP service. There are three parts:

- **Request validation** (`user_dto.dfy`, module `UserDtos`). The Bean
  Validation annotations on `CreateUserRequest` and `UpdateUserRequest` are
  kept as data: a field, a constraint and its declared message. One checker
  applies every constraint of every checked field and returns one violation
  per failed constraint. An update checks a field only when it is present.
  `UserDto` is the response record and has no password field.
- **The user service** (`user_service.dfy`, module `UserServices`). The
  class `UserService` holds the user table as a map from id to `User`,
  plus an auto-increment counter. Lookups by id and by email are functions
  of that state. `CreateUser`, `UpdateUser` and `DeleteUser` are methods
  that change it. Their failures are the `NotFound` and `AlreadyExists`
  results, carrying the messages the service throws. Sort sanitisation for
  the listing is a pure function.
- **The error taxonomy** (`global_exception_handler.dfy`, module
  `ErrorHandling`). Each failure kind maps to an HTTP status and an error
  body with a fixed code. Validation failures get one field error per
  violation. Unexpected failures get a fixed message.

`user_controller.dfy` (module `UserApi`) joins the three: a request body is
validated first, the service is called only when there are no violations,
and service failures go through the handler. `decimal.dfy` renders a
`Long` id in decimal, as the message templates do. `wrappers.dfy` holds
`Option` for Kotlin's nullable values.

Assumptions about collaborators whose code is not part of this model:

- The repository (`UserRepository`) and the entity (`User`) are not part of
  this model. The table is a map keyed by id. Inserts get fresh ids from 1
  upward, and ids are never reused. `existsByEmail` and `findByEmail`
  compare emails exactly.
- The email-shape check of `@Email` belongs to the validator library. It is
  the parameter `isEmail`. As that library does, the empty string counts as
  well-formed, so only `@NotBlank` rejects an empty create email.
- `@NotBlank` follows Java's `String.trim`: a value is blank when every
  character is at most U+0020.
- `@Size` without a maximum is bounded by `Integer.MAX_VALUE`.

Where the code departs from the intended behaviour of the service, the model
follows the code:

- The sort allow-list in `UserService.kt:28` includes `password`, and the
  handler's message repeats it. Password is meant not to be sortable. `SortByPasswordPassesThrough` shows that a sort on password
  passes through unchanged.
- An update's id is meant to be checked before its body is validated. In
  the code, the controller validates first (`UserController.kt:171`). An invalid body
  for an unknown id therefore gets `VALIDATION_ERROR`, not
  `USER_NOT_FOUND`. `PutUser` states this.
- Responses to successful calls never carry a password, but a validation
  reply does: a rejected password comes back as the field error's rejected
  value (`ShortPasswordEchoedInReply`).
- The update rules are weaker than the create rules. An update may set the
  email to the empty string or the name to two blanks
  (`UpdateAcceptsBlankValues`).

## Model

| member | source | states |
|---|---|---|
| `Decimal.IntToString` | src/main/kotlin/io/dhlottery/user/service/UserService.kt:48 | the id in a not-found message is a non-empty decimal numeral that starts with '-' exactly when the id is negative |
| `Decimal.NatToStringRoundTrip` | src/main/kotlin/io/dhlottery/user/service/UserService.kt:48 | reading the digits back gives the number |
| `Decimal.IntToStringRoundTrip` | src/main/kotlin/io/dhlottery/user/service/UserService.kt:48 | parsing the rendered id gives the id back |
| `Decimal.IntToStringInjective` | src/main/kotlin/io/dhlottery/user/service/UserService.kt:48 | different ids are rendered differently |
| `UserDtos.CheckField` | src/main/kotlin/io/dhlottery/user/dto/UserDto.kt:20-47 | every field constraint is checked independently; the result holds a violation for a rule exactly when that rule fails, each rejecting the field's value, is empty exactly when all rules hold, and has no duplicate entries when the rules' messages are distinct |
| `UserDtos.CreateViolations` | src/main/kotlin/io/dhlottery/user/dto/UserDto.kt:20-36 | at most six violations and no duplicates, so at most one entry per failed create constraint; each names email, password or name and rejects that field's own value |
| `UserDtos.UpdateViolations` | src/main/kotlin/io/dhlottery/user/dto/UserDto.kt:38-47 | at most one violation per update constraint; a violation exists only for a supplied field and rejects the value supplied for it |
| `UserDtos.CreateViolationsEmptyIff` | src/main/kotlin/io/dhlottery/user/dto/UserDto.kt:20-36 | a create request has no violations exactly when email is non-blank and email-shaped, password is non-blank with at least 6 characters, and name is non-blank with 2 to 50 characters |
| `UserDtos.CreateEmailRejections` | src/main/kotlin/io/dhlottery/user/dto/UserDto.kt:22-25 | "Email is required" is reported exactly for a blank email, and "Email should be valid" exactly for a non-empty malformed one |
| `UserDtos.CreatePasswordRejections` | src/main/kotlin/io/dhlottery/user/dto/UserDto.kt:27-30 | "Password is required" is reported exactly for a blank password, and the minimum-length message exactly for a password outside 6 characters up to Integer.MAX_VALUE |
| `UserDtos.CreateNameRejections` | src/main/kotlin/io/dhlottery/user/dto/UserDto.kt:32-35 | "Name is required" is reported exactly for a blank name, and the length message exactly for a name outside 2 to 50 characters |
| `UserDtos.UpdateViolationsEmptyIff` | src/main/kotlin/io/dhlottery/user/dto/UserDto.kt:38-47 | an update request has no violations exactly when a present non-empty email is email-shaped and a present name has 2 to 50 characters |
| `UserDtos.EmptyUpdateIsValid` | src/main/kotlin/io/dhlottery/user/dto/UserDto.kt:38-47 | an update supplying neither field has no violations |
| `UserDtos.UpdateNameLengthRejected` | src/main/kotlin/io/dhlottery/user/dto/UserDto.kt:45-46 | a present update name outside [2, 50] yields the length message for that value |
| `UserDtos.UpdateEmailShapeRejected` | src/main/kotlin/io/dhlottery/user/dto/UserDto.kt:40-42 | a present, non-empty, malformed update email yields "Email should be valid" |
| `UserDtos.TwoBadFieldsGiveTwoViolations` | src/main/kotlin/io/dhlottery/user/dto/UserDto.kt:20-36 | email "bad" with name "A" yields exactly two violations, the email shape and the name length |
| `UserDtos.UpdateAcceptsBlankValues` | src/main/kotlin/io/dhlottery/user/dto/UserDto.kt:38-47 | an update with an empty email and a blank two-character name passes, while a create with the same values does not |
| `ErrorHandling.FieldErrors` | src/main/kotlin/io/dhlottery/user/exception/GlobalExceptionHandler.kt:55-61 | one field error per violation, same order, copying field and rejected value, with message defaulting to "Invalid value" |
| `ErrorHandling.PropertyReferenceMessage` | src/main/kotlin/io/dhlottery/user/exception/GlobalExceptionHandler.kt:73-85 | the invalid-sort message starts with its fixed prefix and names the rejected property right after it |
| `ErrorHandling.Handle` | src/main/kotlin/io/dhlottery/user/exception/GlobalExceptionHandler.kt:22-114 | not found gives 404 USER_NOT_FOUND, already exists gives 409 USER_ALREADY_EXISTS, validation gives 400 VALIDATION_ERROR with "Validation failed for one or more fields" and the field errors built from the violations, a bad sort property gives 400 INVALID_SORT_PROPERTY, an illegal argument gives 400 INVALID_ARGUMENT, each with the exception's message or its fallback; status 500 occurs exactly for unexpected failures, whose body is fixed |
| `ErrorHandling.GenericHidesMessage` | src/main/kotlin/io/dhlottery/user/exception/GlobalExceptionHandler.kt:101-114 | the reply to an unexpected failure does not depend on its message |
| `ErrorHandling.CodeIdentifiesKind` | src/main/kotlin/io/dhlottery/user/exception/GlobalExceptionHandler.kt:22-114 | equal error codes imply the same failure kind |
| `ErrorHandling.ValidationReplyCopiesMessages` | src/main/kotlin/io/dhlottery/user/exception/GlobalExceptionHandler.kt:50-71 | the i-th field error of a validation reply carries the i-th violation's field, value and message |
| `ErrorHandling.ViolationReachesReply` | src/main/kotlin/io/dhlottery/user/exception/GlobalExceptionHandler.kt:55-61 | every violation with a message appears in the validation reply with its field, value and message |
| `UserServices.InvalidProperties` | src/main/kotlin/io/dhlottery/user/service/UserService.kt:28-32 | a property is reported exactly when it is requested and outside {id, email, name, password} |
| `UserServices.SanitizePageable` | src/main/kotlin/io/dhlottery/user/service/UserService.kt:27-44 | page number and size are kept; the request passes unchanged when every sort property is allowed, and otherwise sorts by id ascending only; the result sorts on allowed properties only |
| `UserServices.ToDto` | src/main/kotlin/io/dhlottery/user/service/UserService.kt:100-104 | the response keeps the record's id, email and name and has no password |
| `UserServices.Merge` | src/main/kotlin/io/dhlottery/user/service/UserService.kt:84-87 | id and password never change; a supplied email or name replaces the stored one, and an absent one leaves it as it was |
| `UserServices.UpdateConflicts` | src/main/kotlin/io/dhlottery/user/service/UserService.kt:78-82 | only a supplied email that is in use can conflict, and supplying the user's own current email never does |
| `UserServices.UserService.GetUserById` | src/main/kotlin/io/dhlottery/user/service/UserService.kt:46-50 | succeeds exactly for a stored id, with that record's id, email and name; otherwise NotFound "User not found with id: <id>" |
| `UserServices.UserService.GetUserByEmail` | src/main/kotlin/io/dhlottery/user/service/UserService.kt:52-56 | succeeds exactly when some record has that exact email, returning that record; otherwise NotFound "User not found with email: <email>" |
| `UserServices.UserService.CreateUser` | src/main/kotlin/io/dhlottery/user/service/UserService.kt:58-71 | an email in use gives AlreadyExists and changes nothing; otherwise exactly one record with the request's email, password and name is added under a fresh id, and its DTO is returned; emails stay unique |
| `UserServices.UserService.UpdateUser` | src/main/kotlin/io/dhlottery/user/service/UserService.kt:73-91 | an absent id gives NotFound and a conflicting email gives AlreadyExists, both writing nothing; otherwise only that record changes, to the merge of the request onto it; emails stay unique |
| `UserServices.UserService.DeleteUser` | src/main/kotlin/io/dhlottery/user/service/UserService.kt:93-98 | an absent id gives NotFound and writes nothing; otherwise exactly that id is removed; afterwards a lookup of the id gives NotFound |
| `UserServices.InsertKeepsEmailsUnique` | src/main/kotlin/io/dhlottery/user/service/UserService.kt:59-69 | inserting under a fresh id a record whose email is unused keeps emails unique |
| `UserServices.MergeKeepsEmailsUnique` | src/main/kotlin/io/dhlottery/user/service/UserService.kt:78-89 | a non-conflicting update keeps emails unique |
| `UserServices.RemoveKeepsEmailsUnique` | src/main/kotlin/io/dhlottery/user/service/UserService.kt:93-98 | deleting keeps emails unique |
| `UserServices.UpdateConflictsIff` | src/main/kotlin/io/dhlottery/user/service/UserService.kt:77-82 | with unique emails, an update conflicts exactly when it supplies an email held by another user |
| `UserServices.MergeIdempotent` | src/main/kotlin/io/dhlottery/user/service/UserService.kt:84-87 | applying the same update twice equals applying it once |
| `UserServices.NotFoundByIdMessagesDistinct` | src/main/kotlin/io/dhlottery/user/service/UserService.kt:48 | not-found messages for different ids differ |
| `UserServices.ToDtoForgetsPassword` | src/main/kotlin/io/dhlottery/user/service/UserService.kt:100-104 | two records have the same response exactly when id, email and name agree, whatever their passwords |
| `UserServices.SortByPasswordPassesThrough` | src/main/kotlin/io/dhlottery/user/service/UserService.kt:28 | a sort on password passes sanitisation unchanged |
| `UserApi.ToReply` | src/main/kotlin/io/dhlottery/user/exception/GlobalExceptionHandler.kt:22-48 | a service result succeeds with its value, NotFound becomes 404 USER_NOT_FOUND and AlreadyExists becomes 409 USER_ALREADY_EXISTS, each with the thrown message |
| `UserApi.PostUser` | src/main/kotlin/io/dhlottery/user/controller/UserController.kt:129-136 | a create body with violations gets the validation reply and the service is not called; otherwise it succeeds exactly when the email is unused, returning the new record's response under the fresh id, adding that one record and advancing the id counter, and otherwise fails with 409 USER_ALREADY_EXISTS and the service's message, leaving the table and the counter unchanged |
| `UserApi.PutUser` | src/main/kotlin/io/dhlottery/user/controller/UserController.kt:166-175 | an update body with violations gets the validation reply whether or not the id exists; otherwise an unknown id gives 404 USER_NOT_FOUND with the by-id message, a conflict gives 409 USER_ALREADY_EXISTS with the supplied email, both leaving the table unchanged, and a success returns the merged record's response and stores that record |
| `UserApi.ShortPasswordEchoedInReply` | src/main/kotlin/io/dhlottery/user/exception/GlobalExceptionHandler.kt:55-61 | a create body with a password under 6 characters gets a field error carrying that password as the rejected value |
| `UserApi.DefaultPageableIsKept` | src/main/kotlin/io/dhlottery/user/controller/UserController.kt:46 | the default request of page 0, size 20, sorted by id is kept as it is |

## Left out

- Paging. `findAll(pageable)`, Spring Data's ordering and
  `PagedUserResponse.from` are not part of this model. The listing models
  only the sort decision.
- The email regular expression belongs to the validator library. It is the
  parameter `isEmail`.
- Violation order: the validator reports violations in no fixed order. The
  model lists them field by field, in declaration order.
- String lengths are counted in characters. Java counts UTF-16 code units,
  so the two differ for characters outside the Basic Multilingual Plane.
- Ids are unbounded integers. The 64-bit range of `Long` is not modelled.
- Timestamps, request paths and logging in the error responses.
- `@Transactional` and concurrent callers. The check-then-write race between
  `existsByEmail` and `save` is outside a model of sequential calls, so
  email uniqueness is proved for sequential calls only.
- Password hashing. The source defers it, so passwords are stored verbatim.
- The exception class hierarchy. The exception classes form a hierarchy in Kotlin (a subclass of
  `IllegalArgumentException` reaches that handler). The model treats the
  failure kinds as disjoint. Spring's choice of handler by class is not
  modelled.
- An unpaged `Pageable`. The controller always supplies a paged request.
- The health endpoint, the Swagger and web configuration, and the
  application's bootstrap. They contain no business logic.
- HTTP routing and success statuses (200, 201, 204) of the controller.
