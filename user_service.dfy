/**
 * The user service: sort sanitisation for the paged listing, lookups by id
 * and by email, and create, update and delete over the user table.
 *
 * The repository is modelled as the map `users` from id to record, with ids
 * handed out by the counter `nextId` (the table's auto-increment, starting at
 * 1 and never reused) and an exact-match lookup by email. The service's
 * calls are taken one at a time.
 */
module UserServices {
  import opened Wrappers
  import opened Decimal
  import opened UserDtos

  /** A stored row. The password is kept as given. */
  datatype User = User(id: int, email: string, password: string, name: string)

  /** What a service call returns, or the exception it throws with its message. */
  datatype ServiceResult<+T> = Ok(value: T) | NotFound(message: string) | AlreadyExists(message: string)

  datatype Direction = Asc | Desc
  datatype Order = Order(property: string, direction: Direction)
  datatype Pageable = Pageable(pageNumber: nat, pageSize: nat, sort: seq<Order>)

  /** The response projection: id, email and name are kept, the password is dropped. */
  function ToDto(u: User): (d: UserDto)
    ensures d.id == u.id && d.email == u.email && d.name == u.name
  {
    UserDto(u.id, u.email, u.name)
  }

  // ---------------------------------------------------------------- sorting

  const SortableProperties: set<string> := {"id", "email", "name", "password"}

  function SortProperties(sort: seq<Order>): seq<string> {
    seq(|sort|, i requires 0 <= i < |sort| => sort[i].property)
  }

  /** The requested sort properties outside the allow-list, in request order. */
  function InvalidProperties(props: seq<string>): (bad: seq<string>)
    ensures |bad| <= |props|
    ensures forall p :: p in bad <==> p in props && p !in SortableProperties
  {
    if props == [] then
      []
    else if props[0] in SortableProperties then
      InvalidProperties(props[1..])
    else
      [props[0]] + InvalidProperties(props[1..])
  }

  /**
   * A request whose sort names any property outside the allow-list is
   * replaced by one sorted on `id` ascending, with the same page number and
   * page size; otherwise it passes through unchanged.
   */
  function SanitizePageable(p: Pageable): (r: Pageable)
    ensures r.pageNumber == p.pageNumber && r.pageSize == p.pageSize
    ensures (forall o | o in p.sort :: o.property in SortableProperties) ==> r == p
    ensures (exists o | o in p.sort :: o.property !in SortableProperties) ==> r.sort == [Order("id", Asc)]
    ensures forall o | o in r.sort :: o.property in SortableProperties
  {
    var props := SortProperties(p.sort);
    assert |props| == |p.sort| && forall i | 0 <= i < |p.sort| :: props[i] == p.sort[i].property;
    var bad := InvalidProperties(props);
    if bad != [] then
      assert bad[0] in props && bad[0] !in SortableProperties;
      assert exists i | 0 <= i < |p.sort| :: p.sort[i].property == bad[0];
      Pageable(p.pageNumber, p.pageSize, [Order("id", Asc)])
    else
      assert forall o | o in p.sort :: o.property in props;
      p
  }

  // ---------------------------------------------------------------- the table

  /** The repository's `existsByEmail`, by exact comparison: some stored row carries the email. */
  predicate EmailInUse(users: map<int, User>, email: string) {
    exists id | id in users :: users[id].email == email
  }

  ghost predicate EmailsUnique(users: map<int, User>) {
    forall i, j | i in users && j in users && users[i].email == users[j].email :: i == j
  }

  /** Each row is stored under its own id. */
  ghost predicate KeyedById(users: map<int, User>) {
    forall id | id in users :: users[id].id == id
  }

  function NotFoundByIdMessage(id: int): string {
    "User not found with id: " + IntToString(id)
  }

  function NotFoundByEmailMessage(email: string): string {
    "User not found with email: " + email
  }

  function AlreadyExistsMessage(email: string): string {
    "User already exists with email: " + email
  }

  /** The partial update: only the supplied fields change; id and password never do. */
  function Merge(u: User, req: UpdateUserRequest): (v: User)
    ensures v.id == u.id && v.password == u.password
    ensures v.email == (if req.email.Some? then req.email.value else u.email)
    ensures v.name == (if req.name.Some? then req.name.value else u.name)
  {
    u.(email := req.email.GetOr(u.email), name := req.name.GetOr(u.name))
  }

  /**
   * An update is refused when it supplies an email that differs from the
   * user's own and is in use. Only a supplied email can conflict, and
   * supplying the user's own email never does.
   */
  predicate UpdateConflicts(users: map<int, User>, id: int, req: UpdateUserRequest): (conflict: bool)
    requires id in users
    ensures conflict ==> req.email.Some? && EmailInUse(users, req.email.value)
    ensures req.email.None? || req.email.value == users[id].email ==> !conflict
  {
    req.email.Some? && req.email.value != users[id].email && EmailInUse(users, req.email.value)
  }

  class UserService {
    var users: map<int, User>
    var nextId: int

    ghost predicate Valid()
      reads this
    {
      && nextId >= 1
      && KeyedById(users)
      && (forall id | id in users :: 1 <= id < nextId)
      && EmailsUnique(users)
    }

    constructor ()
      ensures Valid() && users == map[] && nextId == 1
    {
      users := map[];
      nextId := 1;
    }

    function GetUserById(id: int): (r: ServiceResult<UserDto>)
      reads this
      ensures r.Ok? <==> id in users
      ensures r.Ok? ==> r.value.id == users[id].id && r.value.email == users[id].email && r.value.name == users[id].name
      ensures !r.Ok? ==> r == NotFound(NotFoundByIdMessage(id))
    {
      if id in users then Ok(ToDto(users[id])) else NotFound(NotFoundByIdMessage(id))
    }

    function GetUserByEmail(email: string): (r: ServiceResult<UserDto>)
      reads this
      requires Valid()
      ensures r.Ok? <==> EmailInUse(users, email)
      ensures r.Ok? ==> r.value.id in users && r.value.email == email && r.value == ToDto(users[r.value.id])
      ensures !r.Ok? ==> r == NotFound(NotFoundByEmailMessage(email))
    {
      if EmailInUse(users, email) then
        var id :| id in users && users[id].email == email;
        Ok(ToDto(users[id]))
      else
        NotFound(NotFoundByEmailMessage(email))
    }

    method CreateUser(req: CreateUserRequest) returns (r: ServiceResult<UserDto>)
      requires Valid()
      modifies this
      ensures Valid()
      ensures EmailInUse(old(users), req.email) ==>
        r == AlreadyExists(AlreadyExistsMessage(req.email)) && users == old(users) && nextId == old(nextId)
      ensures !EmailInUse(old(users), req.email) ==>
        && old(nextId) !in old(users)
        && users == old(users)[old(nextId) := User(old(nextId), req.email, req.password, req.name)]
        && nextId == old(nextId) + 1
        && r == Ok(UserDto(old(nextId), req.email, req.name))
    {
      if EmailInUse(users, req.email) {
        return AlreadyExists(AlreadyExistsMessage(req.email));
      }
      var user := User(nextId, req.email, req.password, req.name);
      InsertKeepsEmailsUnique(users, user);
      users := users[nextId := user];
      nextId := nextId + 1;
      r := Ok(ToDto(user));
    }

    method UpdateUser(id: int, req: UpdateUserRequest) returns (r: ServiceResult<UserDto>)
      requires Valid()
      modifies this
      ensures Valid() && nextId == old(nextId)
      ensures id !in old(users) ==> r == NotFound(NotFoundByIdMessage(id)) && users == old(users)
      ensures id in old(users) && UpdateConflicts(old(users), id, req) ==>
        r == AlreadyExists(AlreadyExistsMessage(req.email.value)) && users == old(users)
      ensures id in old(users) && !UpdateConflicts(old(users), id, req) ==>
        && users == old(users)[id := Merge(old(users)[id], req)]
        && r == Ok(ToDto(users[id]))
    {
      if id !in users {
        return NotFound(NotFoundByIdMessage(id));
      }
      var existing := users[id];
      if req.email.Some? && req.email.value != existing.email && EmailInUse(users, req.email.value) {
        return AlreadyExists(AlreadyExistsMessage(req.email.value));
      }
      var updated := Merge(existing, req);
      MergeKeepsEmailsUnique(users, id, req);
      users := users[id := updated];
      r := Ok(ToDto(updated));
    }

    method DeleteUser(id: int) returns (r: ServiceResult<()>)
      requires Valid()
      modifies this
      ensures Valid() && nextId == old(nextId)
      ensures id !in old(users) ==> r == NotFound(NotFoundByIdMessage(id)) && users == old(users)
      ensures id in old(users) ==> r == Ok(()) && users == old(users) - {id}
      ensures GetUserById(id) == NotFound(NotFoundByIdMessage(id))
    {
      if id !in users {
        return NotFound(NotFoundByIdMessage(id));
      }
      users := users - {id};
      r := Ok(());
    }
  }

  // ---------------------------------------------------------------- lemmas

  /** Inserting a row whose email is unused keeps emails unique. */
  lemma InsertKeepsEmailsUnique(users: map<int, User>, u: User)
    requires EmailsUnique(users) && u.id !in users && !EmailInUse(users, u.email)
    ensures EmailsUnique(users[u.id := u])
  {
  }

  /** A non-conflicting partial update keeps emails unique. */
  lemma MergeKeepsEmailsUnique(users: map<int, User>, id: int, req: UpdateUserRequest)
    requires EmailsUnique(users) && id in users && !UpdateConflicts(users, id, req)
    ensures EmailsUnique(users[id := Merge(users[id], req)])
  {
  }

  /** Removing a row keeps emails unique. */
  lemma RemoveKeepsEmailsUnique(users: map<int, User>, id: int)
    requires EmailsUnique(users)
    ensures EmailsUnique(users - {id})
  {
  }

  /**
   * With unique emails, an update conflicts exactly when it supplies an
   * email that another user holds; supplying one's own email never does.
   */
  lemma UpdateConflictsIff(users: map<int, User>, id: int, req: UpdateUserRequest)
    requires EmailsUnique(users) && id in users
    ensures UpdateConflicts(users, id, req) <==>
      req.email.Some? && exists other | other in users :: other != id && users[other].email == req.email.value
  {
  }

  lemma MergeIdempotent(u: User, req: UpdateUserRequest)
    ensures Merge(Merge(u, req), req) == Merge(u, req)
  {
  }

  /** Not-found messages for different ids differ. */
  lemma NotFoundByIdMessagesDistinct(a: int, b: int)
    requires a != b
    ensures NotFoundByIdMessage(a) != NotFoundByIdMessage(b)
  {
    var prefix := "User not found with id: ";
    if NotFoundByIdMessage(a) == NotFoundByIdMessage(b) {
      assert NotFoundByIdMessage(a)[|prefix|..] == IntToString(a);
      assert NotFoundByIdMessage(b)[|prefix|..] == IntToString(b);
      IntToStringInjective(a, b);
    }
  }

  /** Two records with the same id, email and name give the same response, whatever their passwords. */
  lemma ToDtoForgetsPassword(u: User, v: User)
    ensures ToDto(u) == ToDto(v) <==> u.id == v.id && u.email == v.email && u.name == v.name
  {
  }

  /** The code's allow-list admits sorting by password: such a request passes through unchanged. */
  lemma SortByPasswordPassesThrough(page: nat, size: nat, d: Direction)
    ensures SanitizePageable(Pageable(page, size, [Order("password", d)])) == Pageable(page, size, [Order("password", d)])
  {
  }
}
