/**
 * What the controller contributes to the core: request bodies are validated
 * before the service is called, service exceptions reach the global handler,
 * and the listing defaults to pages of 20 sorted by id.
 */
module UserApi {
  import opened Wrappers
  import opened UserDtos
  import opened ErrorHandling
  import opened UserServices

  /** The value a call returns, or the error reply the handler produced. */
  datatype Reply<+T> = Success(value: T) | Rejected(error: ErrorReply)

  /** The default page request: page 0, size 20, sorted by id. */
  const DefaultPageable := Pageable(0, 20, [Order("id", Asc)])

  /** Routes a service exception through the global handler, carrying its message. */
  function ToReply<T>(r: ServiceResult<T>): (rep: Reply<T>)
    ensures rep.Success? <==> r.Ok?
    ensures r.Ok? ==> rep.value == r.value
    ensures r.NotFound? ==>
      rep.error.status == NotFoundStatus && rep.error.body == ErrorResponse("USER_NOT_FOUND", r.message)
    ensures r.AlreadyExists? ==>
      rep.error.status == ConflictStatus && rep.error.body == ErrorResponse("USER_ALREADY_EXISTS", r.message)
  {
    match r
    case Ok(v) => Success(v)
    case NotFound(m) => Rejected(Handle(UserNotFound(Some(m))))
    case AlreadyExists(m) => Rejected(Handle(UserAlreadyExists(Some(m))))
  }

  /** POST of a new user: validation first, then the service. */
  method PostUser(service: UserService, req: CreateUserRequest, isEmail: string -> bool)
    returns (rep: Reply<UserDto>)
    requires service.Valid()
    modifies service
    ensures service.Valid()
    ensures CreateViolations(req, isEmail) != [] ==>
      && rep == Rejected(Handle(ArgumentNotValid(CreateViolations(req, isEmail))))
      && service.users == old(service.users) && service.nextId == old(service.nextId)
    ensures CreateViolations(req, isEmail) == [] ==>
      && (rep.Success? <==> !EmailInUse(old(service.users), req.email))
      && (rep.Rejected? ==>
            && rep.error == ErrorReply(ConflictStatus, ErrorResponse("USER_ALREADY_EXISTS", AlreadyExistsMessage(req.email)))
            && service.users == old(service.users) && service.nextId == old(service.nextId))
      && (rep.Success? ==>
            && rep.value == UserDto(old(service.nextId), req.email, req.name)
            && service.nextId == old(service.nextId) + 1
            && rep.value.id !in old(service.users)
            && service.users == old(service.users)[rep.value.id := User(rep.value.id, req.email, req.password, req.name)])
  {
    var violations := CreateViolations(req, isEmail);
    if violations != [] {
      return Rejected(Handle(ArgumentNotValid(violations)));
    }
    var r := service.CreateUser(req);
    rep := ToReply(r);
  }

  /** PUT of an existing user: validation first, so an invalid body is rejected even for an unknown id. */
  method PutUser(service: UserService, id: int, req: UpdateUserRequest, isEmail: string -> bool)
    returns (rep: Reply<UserDto>)
    requires service.Valid()
    modifies service
    ensures service.Valid() && service.nextId == old(service.nextId)
    ensures UpdateViolations(req, isEmail) != [] ==>
      && rep == Rejected(Handle(ArgumentNotValid(UpdateViolations(req, isEmail))))
      && service.users == old(service.users)
    ensures UpdateViolations(req, isEmail) == [] && id !in old(service.users) ==>
      && rep == Rejected(ErrorReply(NotFoundStatus, ErrorResponse("USER_NOT_FOUND", NotFoundByIdMessage(id))))
      && service.users == old(service.users)
    ensures UpdateViolations(req, isEmail) == [] && id in old(service.users) ==>
      && (rep.Rejected? <==> UpdateConflicts(old(service.users), id, req))
      && (rep.Rejected? ==>
            && rep.error == ErrorReply(ConflictStatus, ErrorResponse("USER_ALREADY_EXISTS", AlreadyExistsMessage(req.email.value)))
            && service.users == old(service.users))
      && (rep.Success? ==>
            && rep.value == ToDto(Merge(old(service.users)[id], req))
            && service.users == old(service.users)[id := Merge(old(service.users)[id], req)])
  {
    var violations := UpdateViolations(req, isEmail);
    if violations != [] {
      return Rejected(Handle(ArgumentNotValid(violations)));
    }
    var r := service.UpdateUser(id, req);
    rep := ToReply(r);
  }

  /** The default page request of the listing survives sort sanitisation unchanged. */
  lemma DefaultPageableIsKept()
    ensures SanitizePageable(DefaultPageable) == DefaultPageable
  {
  }

  /**
   * A create body whose password is too short is rejected with a field error
   * that carries the password itself as the rejected value.
   */
  lemma ShortPasswordEchoedInReply(req: CreateUserRequest, isEmail: string -> bool)
    requires |req.password| < 6
    ensures FieldError("password", req.password, "Password must be at least 6 characters")
      in Handle(ArgumentNotValid(CreateViolations(req, isEmail))).body.fieldErrors
  {
    var v := ViolationOf(CreatePasswordRules[1], req.password);
    var p := CheckField(CreatePasswordRules, req.password, isEmail);
    assert v in p;
    assert CreateViolations(req, isEmail) ==
      CheckField(CreateEmailRules, req.email, isEmail) + p + CheckField(CreateNameRules, req.name, isEmail);
    ViolationReachesReply(CreateViolations(req, isEmail), v);
  }

  /** Both create bodies of the example session pass validation. */
  lemma ExampleBodiesAreValid(isEmail: string -> bool)
    requires isEmail("a@x.com")
    ensures CreateViolations(CreateUserRequest("a@x.com", "123456", "Ann"), isEmail) == []
    ensures CreateViolations(CreateUserRequest("a@x.com", "654321", "Bob"), isEmail) == []
  {
    assert !IsBlank("a@x.com") by { assert "a@x.com"[0] == 'a'; }
    assert !IsBlank("123456") by { assert "123456"[0] == '1'; }
    assert !IsBlank("Ann") by { assert "Ann"[0] == 'A'; }
    assert !IsBlank("654321") by { assert "654321"[0] == '6'; }
    assert !IsBlank("Bob") by { assert "Bob"[0] == 'B'; }
    CreateViolationsEmptyIff(CreateUserRequest("a@x.com", "123456", "Ann"), isEmail);
    CreateViolationsEmptyIff(CreateUserRequest("a@x.com", "654321", "Bob"), isEmail);
  }

  /** The create, conflict, update, delete session of a fresh service. */
  method ExampleSession(isEmail: string -> bool)
    requires isEmail("a@x.com")
  {
    ExampleBodiesAreValid(isEmail);
    var service := new UserService();
    var created := PostUser(service, CreateUserRequest("a@x.com", "123456", "Ann"), isEmail);
    assert created == Success(UserDto(1, "a@x.com", "Ann"));

    var again := PostUser(service, CreateUserRequest("a@x.com", "654321", "Bob"), isEmail);
    assert EmailInUse(service.users, "a@x.com") by { assert service.users[1].email == "a@x.com"; }
    assert again.Rejected? && again.error.status == ConflictStatus;

    var renamed := service.UpdateUser(1, UpdateUserRequest(None, Some("Annie")));
    assert renamed == Ok(UserDto(1, "a@x.com", "Annie"));

    var deleted := service.DeleteUser(1);
    assert deleted == Ok(());
    assert service.GetUserById(1).NotFound?;
  }
}
