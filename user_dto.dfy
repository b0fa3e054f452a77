/**
 * The request and response DTOs of the user API and the Bean Validation
 * constraints declared on the request fields.
 *
 * The constraints are kept as data (a field name, a constraint and the
 * message the annotation declares) and one checker applies every constraint
 * of every checked field, so a request with several bad fields yields one
 * violation per failed constraint rather than only the first.
 *
 * The email-shape check of `@Email` belongs to the validator library and is
 * passed in as `isEmail`.
 */
module UserDtos {
  import opened Wrappers

  /**
   * The response record of a successful call: it has no password field, so
   * no user reply carries one. A validation reply is another matter: it
   * echoes a rejected password as the field error's rejected value.
   */
  datatype UserDto = UserDto(id: int, email: string, name: string)

  datatype CreateUserRequest = CreateUserRequest(email: string, password: string, name: string)

  /** Both fields are optional; an absent field is neither checked nor changed. */
  datatype UpdateUserRequest = UpdateUserRequest(email: Option<string>, name: Option<string>)

  /** `@NotBlank`, `@Email` and `@Size(min, max)`. */
  datatype Constraint = NotBlank | Email | Size(min: nat, max: nat)

  /** One annotation on one field, with its declared message. */
  datatype Rule = Rule(field: string, constraint: Constraint, message: string)

  /**
   * A field error as the validator reports it: the field, the value it
   * rejected and the constraint's message (which a binding error may lack).
   */
  datatype Violation = Violation(field: string, rejectedValue: string, message: Option<string>)

  /** `@Size` without `max` bounds a string by `Integer.MAX_VALUE`. */
  const IntMaxValue: nat := 0x7fff_ffff

  /** Java's `String.trim` drops every character up to U+0020 from both ends. */
  predicate IsBlank(s: string) {
    forall i | 0 <= i < |s| :: s[i] <= ' '
  }

  /** The validator accepts the empty string as a well-formed email. */
  predicate Satisfies(c: Constraint, value: string, isEmail: string -> bool) {
    match c
    case NotBlank => !IsBlank(value)
    case Email => |value| == 0 || isEmail(value)
    case Size(min, max) => min <= |value| <= max
  }

  function ViolationOf(rule: Rule, value: string): Violation {
    Violation(rule.field, value, Some(rule.message))
  }

  ghost predicate NoDuplicates<T>(s: seq<T>) {
    forall i, k | 0 <= i < k < |s| :: s[i] != s[k]
  }

  /** No two rules of a field share a message, so no two report the same violation. */
  ghost predicate DistinctMessages(rules: seq<Rule>) {
    forall j, k | 0 <= j < k < |rules| :: rules[j].field != rules[k].field || rules[j].message != rules[k].message
  }

  const CreateEmailRules: seq<Rule> :=
    [Rule("email", NotBlank, "Email is required"), Rule("email", Email, "Email should be valid")]
  const CreatePasswordRules: seq<Rule> :=
    [Rule("password", NotBlank, "Password is required"),
     Rule("password", Size(6, IntMaxValue), "Password must be at least 6 characters")]
  const CreateNameRules: seq<Rule> :=
    [Rule("name", NotBlank, "Name is required"),
     Rule("name", Size(2, 50), "Name must be between 2 and 50 characters")]
  const UpdateEmailRules: seq<Rule> := [Rule("email", Email, "Email should be valid")]
  const UpdateNameRules: seq<Rule> := [Rule("name", Size(2, 50), "Name must be between 2 and 50 characters")]

  /**
   * Applies every rule to one field value. The result holds exactly the
   * violations of the rules that fail, in rule order, each rejecting `value`.
   */
  function CheckField(rules: seq<Rule>, value: string, isEmail: string -> bool): (vs: seq<Violation>)
    ensures |vs| <= |rules|
    ensures forall v | v in vs :: v.rejectedValue == value
    ensures forall v | v in vs ::
      exists j | 0 <= j < |rules| :: v == ViolationOf(rules[j], value) && !Satisfies(rules[j].constraint, value, isEmail)
    ensures forall j | 0 <= j < |rules| && !Satisfies(rules[j].constraint, value, isEmail) ::
      ViolationOf(rules[j], value) in vs
    ensures vs == [] <==> forall j | 0 <= j < |rules| :: Satisfies(rules[j].constraint, value, isEmail)
    ensures DistinctMessages(rules) ==> NoDuplicates(vs)
  {
    if rules == [] then []
    else
      var rest := CheckField(rules[1..], value, isEmail);
      assert forall j | 1 <= j < |rules| :: rules[j] == rules[1..][j - 1];
      assert DistinctMessages(rules) ==> DistinctMessages(rules[1..]);
      if Satisfies(rules[0].constraint, value, isEmail) then rest
      else
        var head := ViolationOf(rules[0], value);
        assert DistinctMessages(rules) ==> head !in rest;
        [head] + rest
  }

  /**
   * Violations of a create request: email, then password, then name. Each
   * names one of the three fields and rejects that field's value, and there
   * is at most one per constraint.
   */
  function CreateViolations(req: CreateUserRequest, isEmail: string -> bool): (vs: seq<Violation>)
    ensures |vs| <= 6
    ensures NoDuplicates(vs)
    ensures forall v | v in vs ::
      || (v.field == "email" && v.rejectedValue == req.email)
      || (v.field == "password" && v.rejectedValue == req.password)
      || (v.field == "name" && v.rejectedValue == req.name)
  {
    var e := CheckField(CreateEmailRules, req.email, isEmail);
    var p := CheckField(CreatePasswordRules, req.password, isEmail);
    var n := CheckField(CreateNameRules, req.name, isEmail);
    CheckFieldNamesField(CreateEmailRules, req.email, isEmail, "email");
    CheckFieldNamesField(CreatePasswordRules, req.password, isEmail, "password");
    CheckFieldNamesField(CreateNameRules, req.name, isEmail, "name");
    assert DistinctMessages(CreateEmailRules) && DistinctMessages(CreatePasswordRules) && DistinctMessages(CreateNameRules);
    DisjointFieldsConcat(e, p, "password");
    DisjointFieldsConcat(e + p, n, "name");
    e + p + n
  }

  /** Joining duplicate-free lists whose entries name different fields keeps them duplicate-free. */
  lemma DisjointFieldsConcat(a: seq<Violation>, b: seq<Violation>, fb: string)
    requires NoDuplicates(a) && NoDuplicates(b)
    requires forall v | v in b :: v.field == fb
    requires forall v | v in a :: v.field != fb
    ensures NoDuplicates(a + b)
  {
    var ab := a + b;
    forall i, k | 0 <= i < k < |ab| ensures ab[i] != ab[k] {
      if i < |a| && k >= |a| {
        assert ab[i] in a && ab[k] in b;
      }
    }
  }

  /**
   * Violations of an update request: an absent field is not checked, and a
   * violation rejects the value supplied for its field.
   */
  function UpdateViolations(req: UpdateUserRequest, isEmail: string -> bool): (vs: seq<Violation>)
    ensures |vs| <= 2
    ensures forall v | v in vs ::
      || (v.field == "email" && req.email == Some(v.rejectedValue))
      || (v.field == "name" && req.name == Some(v.rejectedValue))
  {
    (if req.email.Some? then CheckField(UpdateEmailRules, req.email.value, isEmail) else [])
      + (if req.name.Some? then CheckField(UpdateNameRules, req.name.value, isEmail) else [])
  }

  /** The create rules written out field by field, as an independent reference. */
  predicate CreateRequestValid(req: CreateUserRequest, isEmail: string -> bool) {
    && !IsBlank(req.email) && isEmail(req.email)
    && !IsBlank(req.password) && 6 <= |req.password| <= IntMaxValue
    && !IsBlank(req.name) && 2 <= |req.name| <= 50
  }

  predicate UpdateRequestValid(req: UpdateUserRequest, isEmail: string -> bool) {
    && (req.email.Some? && req.email.value != [] ==> isEmail(req.email.value))
    && (req.name.Some? ==> 2 <= |req.name.value| <= 50)
  }

  lemma CreateViolationsEmptyIff(req: CreateUserRequest, isEmail: string -> bool)
    ensures CreateViolations(req, isEmail) == [] <==> CreateRequestValid(req, isEmail)
  {
    var e := CheckField(CreateEmailRules, req.email, isEmail);
    var p := CheckField(CreatePasswordRules, req.password, isEmail);
    var n := CheckField(CreateNameRules, req.name, isEmail);
    assert CreateViolations(req, isEmail) == e + p + n;
    assert e == [] <==> !IsBlank(req.email) && isEmail(req.email) by {
      assert CreateEmailRules[0].constraint == NotBlank && CreateEmailRules[1].constraint == Email;
      if |req.email| == 0 {
        assert IsBlank(req.email);
      }
    }
    assert p == [] <==> !IsBlank(req.password) && 6 <= |req.password| <= IntMaxValue by {
      assert CreatePasswordRules[0].constraint == NotBlank && CreatePasswordRules[1].constraint == Size(6, IntMaxValue);
    }
    assert n == [] <==> !IsBlank(req.name) && 2 <= |req.name| <= 50 by {
      assert CreateNameRules[0].constraint == NotBlank && CreateNameRules[1].constraint == Size(2, 50);
    }
  }

  lemma UpdateViolationsEmptyIff(req: UpdateUserRequest, isEmail: string -> bool)
    ensures UpdateViolations(req, isEmail) == [] <==> UpdateRequestValid(req, isEmail)
  {
  }

  /** With distinct messages, a rule's violation is reported exactly when that rule fails. */
  lemma ReportedIffFails(rules: seq<Rule>, value: string, isEmail: string -> bool, j: nat)
    requires DistinctMessages(rules) && j < |rules|
    ensures ViolationOf(rules[j], value) in CheckField(rules, value, isEmail)
      <==> !Satisfies(rules[j].constraint, value, isEmail)
  {
    var v := ViolationOf(rules[j], value);
    if v in CheckField(rules, value, isEmail) {
      var k :| 0 <= k < |rules| && v == ViolationOf(rules[k], value) && !Satisfies(rules[k].constraint, value, isEmail);
      assert rules[k].field == rules[j].field && rules[k].message == rules[j].message;
      assert k == j;
    }
  }

  /** A check of rules that all belong to field `f` reports only violations of `f`. */
  lemma CheckFieldNamesField(rules: seq<Rule>, value: string, isEmail: string -> bool, f: string)
    requires forall j | 0 <= j < |rules| :: rules[j].field == f
    ensures forall w | w in CheckField(rules, value, isEmail) :: w.field == f
  {
  }

  /** A violation of a given field is in the create list exactly when that field's check reports it. */
  lemma CreateViolationsByField(req: CreateUserRequest, isEmail: string -> bool, v: Violation)
    ensures v.field == "email" ==> (v in CreateViolations(req, isEmail) <==> v in CheckField(CreateEmailRules, req.email, isEmail))
    ensures v.field == "password" ==>
      (v in CreateViolations(req, isEmail) <==> v in CheckField(CreatePasswordRules, req.password, isEmail))
    ensures v.field == "name" ==> (v in CreateViolations(req, isEmail) <==> v in CheckField(CreateNameRules, req.name, isEmail))
  {
    var e := CheckField(CreateEmailRules, req.email, isEmail);
    var p := CheckField(CreatePasswordRules, req.password, isEmail);
    var n := CheckField(CreateNameRules, req.name, isEmail);
    assert CreateViolations(req, isEmail) == e + p + n;
    CheckFieldNamesField(CreateEmailRules, req.email, isEmail, "email");
    CheckFieldNamesField(CreatePasswordRules, req.password, isEmail, "password");
    CheckFieldNamesField(CreateNameRules, req.name, isEmail, "name");
  }

  /** Each create email constraint reports its own message exactly when it fails. */
  lemma CreateEmailRejections(req: CreateUserRequest, isEmail: string -> bool)
    ensures (Violation("email", req.email, Some("Email is required")) in CreateViolations(req, isEmail))
      <==> IsBlank(req.email)
    ensures (Violation("email", req.email, Some("Email should be valid")) in CreateViolations(req, isEmail))
      <==> req.email != [] && !isEmail(req.email)
  {
    CreateViolationsByField(req, isEmail, ViolationOf(CreateEmailRules[0], req.email));
    CreateViolationsByField(req, isEmail, ViolationOf(CreateEmailRules[1], req.email));
    ReportedIffFails(CreateEmailRules, req.email, isEmail, 0);
    ReportedIffFails(CreateEmailRules, req.email, isEmail, 1);
  }

  /** Each create password constraint reports its own message exactly when it fails. */
  lemma CreatePasswordRejections(req: CreateUserRequest, isEmail: string -> bool)
    ensures (Violation("password", req.password, Some("Password is required")) in CreateViolations(req, isEmail))
      <==> IsBlank(req.password)
    ensures (Violation("password", req.password, Some("Password must be at least 6 characters"))
      in CreateViolations(req, isEmail)) <==> !(6 <= |req.password| <= IntMaxValue)
  {
    CreateViolationsByField(req, isEmail, ViolationOf(CreatePasswordRules[0], req.password));
    CreateViolationsByField(req, isEmail, ViolationOf(CreatePasswordRules[1], req.password));
    ReportedIffFails(CreatePasswordRules, req.password, isEmail, 0);
    ReportedIffFails(CreatePasswordRules, req.password, isEmail, 1);
  }

  /** Each create name constraint reports its own message exactly when it fails. */
  lemma CreateNameRejections(req: CreateUserRequest, isEmail: string -> bool)
    ensures (Violation("name", req.name, Some("Name is required")) in CreateViolations(req, isEmail))
      <==> IsBlank(req.name)
    ensures (Violation("name", req.name, Some("Name must be between 2 and 50 characters"))
      in CreateViolations(req, isEmail)) <==> !(2 <= |req.name| <= 50)
  {
    CreateViolationsByField(req, isEmail, ViolationOf(CreateNameRules[0], req.name));
    CreateViolationsByField(req, isEmail, ViolationOf(CreateNameRules[1], req.name));
    ReportedIffFails(CreateNameRules, req.name, isEmail, 0);
    ReportedIffFails(CreateNameRules, req.name, isEmail, 1);
  }

  /** An update that supplies neither field is never rejected. */
  lemma EmptyUpdateIsValid(isEmail: string -> bool)
    ensures UpdateViolations(UpdateUserRequest(None, None), isEmail) == []
  {
  }

  /** A supplied update name outside [2, 50] is rejected with the length message. */
  lemma UpdateNameLengthRejected(req: UpdateUserRequest, isEmail: string -> bool)
    requires req.name.Some? && !(2 <= |req.name.value| <= 50)
    ensures Violation("name", req.name.value, Some("Name must be between 2 and 50 characters"))
      in UpdateViolations(req, isEmail)
  {
    assert ViolationOf(UpdateNameRules[0], req.name.value) in CheckField(UpdateNameRules, req.name.value, isEmail);
  }

  /** A supplied, non-empty update email of the wrong shape is rejected. */
  lemma UpdateEmailShapeRejected(req: UpdateUserRequest, isEmail: string -> bool)
    requires req.email.Some? && req.email.value != [] && !isEmail(req.email.value)
    ensures Violation("email", req.email.value, Some("Email should be valid")) in UpdateViolations(req, isEmail)
  {
    assert ViolationOf(UpdateEmailRules[0], req.email.value) in CheckField(UpdateEmailRules, req.email.value, isEmail);
  }

  /**
   * Constraints are checked independently: a malformed email together with
   * a one-letter name gives two violations, in field order.
   */
  lemma TwoBadFieldsGiveTwoViolations(isEmail: string -> bool)
    requires !isEmail("bad")
    ensures CreateViolations(CreateUserRequest("bad", "123456", "A"), isEmail) ==
      [Violation("email", "bad", Some("Email should be valid")),
       Violation("name", "A", Some("Name must be between 2 and 50 characters"))]
  {
    assert !IsBlank("bad") by { assert "bad"[0] == 'b'; }
    assert !IsBlank("123456") by { assert "123456"[0] == '1'; }
    assert !IsBlank("A") by { assert "A"[0] == 'A'; }
  }

  /**
   * The update rules are weaker than the create rules: an update may supply
   * an empty email or a blank two-character name without a violation.
   */
  lemma UpdateAcceptsBlankValues(isEmail: string -> bool)
    ensures UpdateViolations(UpdateUserRequest(Some(""), Some("  ")), isEmail) == []
    ensures CreateViolations(CreateUserRequest("", "123456", "  "), isEmail) != []
  {
    assert IsBlank("");
  }
}
