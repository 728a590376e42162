/**
  The user resource (internal/domain/user): entity, requests, response,
  request validation, the search-filter predicate and the sentinel errors.
 */
module User {
  import opened Domain
  import opened Validation

  datatype Entity = Entity(
    id: string,
    name: string,
    email: string,
    registrationDate: OnlyDate,
    role: string)

  /** Body of a create request. */
  datatype Request = Request(
    name: string,
    email: string,
    role: string,
    registrationDate: string)

  /** Body of a partial update; an empty string means "not supplied". There is no registration date. */
  datatype UpdateRequest = UpdateRequest(
    name: string,
    email: string,
    role: string)

  datatype Response = Response(
    id: string,
    name: string,
    email: string,
    role: string,
    registrationDate: string)

  const ErrExists: Error := Sentinel(Users, Exists)
  const ErrNotFound: Error := Sentinel(Users, NotFound)
  const ErrSearch: Error := Sentinel(Users, SearchFailed)

  /** The three user sentinels are pairwise distinct and carry their own messages. */
  lemma SentinelsDistinct()
    ensures !ErrExists.Is(ErrNotFound) && !ErrExists.Is(ErrSearch) && !ErrNotFound.Is(ErrSearch)
    ensures ErrExists.Message() == "user already exists"
    ensures ErrNotFound.Message() == "user not found"
    ensures ErrSearch.Message() == "user search error"
  {
  }

  // ---------------------------------------------------------------------------
  // Validation
  // ---------------------------------------------------------------------------

  /** Position of each field in the order the checks run. */
  function FieldRank(field: string): nat {
    if field == "name" then 0
    else if field == "email" then 1
    else if field == "role" then 2
    else if field == "registration_date" then 3
    else 4
  }

  /** The two roles a user can hold, compared exactly. */
  predicate RoleOk(role: string) {
    role == "admin" || role == "manager"
  }

  /** When a create request is acceptable, stated field by field. */
  predicate RequestValid(req: Request, p: Parsers) {
    && req.name != ""
    && p.isEmail(req.email)
    && RoleOk(req.role)
    && p.isDate(req.registrationDate)
  }

  /** The named field of a create request breaks its rule. */
  predicate FieldInvalid(req: Request, p: Parsers, field: string) {
    || (field == "name" && req.name == "")
    || (field == "email" && !p.isEmail(req.email))
    || (field == "role" && !RoleOk(req.role))
    || (field == "registration_date" && !p.isDate(req.registrationDate))
  }

  /**
    `Request.Validate`: every check runs, in the order name, email, role,
    registration_date; a field is named exactly when it breaks its rule.
   */
  function ValidateRequest(req: Request, p: Parsers): (errs: seq<ErrorResponse>)
    ensures forall field :: HasError(errs, field) <==> FieldInvalid(req, p, field)
  {
    var a := Check(req.name == "", "name is required", "name");
    var b := Check(!p.isEmail(req.email), "invalid email address", "email");
    var c := Check(req.role != "admin" && req.role != "manager", "invalid role", "role");
    var d := Check(!p.isDate(req.registrationDate), "invalid registration_date format", "registration_date");
    HasErrorOfFour(a, "name", b, "email", c, "role", d, "registration_date");
    a + b + c + d
  }

  /** A create request is accepted exactly when every field keeps its rule. */
  lemma ValidateRequestEmptyIff(req: Request, p: Parsers)
    ensures ValidateRequest(req, p) == [] <==> RequestValid(req, p)
  {
    var errs := ValidateRequest(req, p);
    if errs != [] {
      assert HasError(errs, errs[0].field);
    }
    if !RequestValid(req, p) {
      var field :=
        if req.name == "" then "name"
        else if !p.isEmail(req.email) then "email"
        else if !RoleOk(req.role) then "role"
        else "registration_date";
      assert FieldInvalid(req, p, field);
      assert HasError(errs, field);
    }
  }

  /** Errors come in the order the checks run, each field at most once, so at most four. */
  lemma ValidateRequestOrdered(req: Request, p: Parsers)
    ensures Ordered(ValidateRequest(req, p), FieldRank, 4)
    ensures |ValidateRequest(req, p)| <= 4
  {
    var a := Check(req.name == "", "name is required", "name");
    var b := Check(!p.isEmail(req.email), "invalid email address", "email");
    var c := Check(req.role != "admin" && req.role != "manager", "invalid role", "role");
    var d := Check(!p.isDate(req.registrationDate), "invalid registration_date format", "registration_date");
    assert ValidateRequest(req, p) == a + b + c + d;
    assert FieldRank("name") == 0 && FieldRank("email") == 1;
    assert FieldRank("role") == 2 && FieldRank("registration_date") == 3;
    OrderedOfFour(a, "name", b, "email", c, "role", d, "registration_date", FieldRank, 4);
    OrderedBound(a + b + c + d, FieldRank, 4);
  }

  /** Role names are compared exactly: other spellings are reported. */
  lemma RoleIsCaseSensitive(req: Request, p: Parsers)
    requires req.role in {"Admin", "MANAGER", "superadmin", ""}
    ensures HasError(ValidateRequest(req, p), "role")
  {
  }

  // ---------------------------------------------------------------------------
  // Partial-update validation
  // ---------------------------------------------------------------------------

  /** The named field of an update request carries a value that breaks its rule; the name is never checked. */
  predicate UpdateFieldInvalid(req: UpdateRequest, p: Parsers, field: string) {
    || (field == "email" && req.email != "" && !p.isEmail(req.email))
    || (field == "role" && req.role != "" && !RoleOk(req.role))
  }

  /** `UpdateRequest.Validate`: a supplied email or role is held to its create rule. */
  function ValidateUpdate(req: UpdateRequest, p: Parsers): (errs: seq<ErrorResponse>)
    ensures forall field :: HasError(errs, field) <==> UpdateFieldInvalid(req, p, field)
  {
    var a := SuppliedCheck(req.email, p.isEmail(req.email), "invalid email address", "email");
    var b := SuppliedCheck(req.role, req.role == "admin" || req.role == "manager", "invalid role", "role");
    HasErrorOfTwo(a, "email", b, "role");
    a + b
  }

  /** The create request carrying an update's values, with `registrationDate` for the field an update lacks. */
  function AsRequest(req: UpdateRequest, registrationDate: string): (r: Request)
    ensures r.name == req.name && r.email == req.email && r.role == req.role
    ensures r.registrationDate == registrationDate
  {
    Request(req.name, req.email, req.role, registrationDate)
  }

  /** An update reports a supplied email or role exactly when a create request with the same value would. */
  lemma UpdateAgreesWithCreate(req: UpdateRequest, p: Parsers, registrationDate: string, field: string)
    ensures HasError(ValidateUpdate(req, p), field) <==>
      && (field == "email" || field == "role")
      && FieldInvalid(AsRequest(req, registrationDate), p, field)
      && !(field == "email" && req.email == "")
      && !(field == "role" && req.role == "")
  {
  }

  /** Update errors come in check order: at most one about the email, then at most one about the role. */
  lemma ValidateUpdateOrdered(req: UpdateRequest, p: Parsers)
    ensures Ordered(ValidateUpdate(req, p), FieldRank, 4)
    ensures |ValidateUpdate(req, p)| <= 2
  {
    var a := SuppliedCheck(req.email, p.isEmail(req.email), "invalid email address", "email");
    var b := SuppliedCheck(req.role, req.role == "admin" || req.role == "manager", "invalid role", "role");
    assert ValidateUpdate(req, p) == a + b;
    assert FieldRank("email") == 1 && FieldRank("role") == 2;
    OrderedOfTwo(a, "email", b, "role", FieldRank, 4);
  }

  /** An update that supplies no email and no role is accepted, whatever its name. */
  lemma EmptyUpdateValid(req: UpdateRequest, p: Parsers)
    requires req.email == "" && req.role == ""
    ensures ValidateUpdate(req, p) == []
  {
  }

  /** An unknown role alone gives exactly one error, about the role. */
  lemma UnknownRoleReportedOnce(req: UpdateRequest, p: Parsers)
    requires req.email == "" && req.role == "superadmin"
    ensures ValidateUpdate(req, p) == [ErrorResponse("invalid role", "role")]
  {
  }

  // ---------------------------------------------------------------------------
  // Responses
  // ---------------------------------------------------------------------------

  /** `ParseFromEntity`: the response carries every field of the entity, the date as its text. */
  function ParseFromEntity(e: Entity): (r: Response)
    ensures ToEntity(r) == e
  {
    Response(e.id, e.name, e.email, e.role, e.registrationDate.String())
  }

  /** The entity a response describes; the inverse of `ParseFromEntity`. */
  function ToEntity(r: Response): Entity {
    Entity(r.id, r.name, r.email, OnlyDate(r.registrationDate), r.role)
  }

  /** Responses and entities correspond one to one. */
  lemma ParseFromEntityBijective(e: Entity, r: Response)
    ensures ParseFromEntity(e) == r <==> ToEntity(r) == e
  {
  }

  /** `ParseFromEntities`: one response per entity, in the same order. */
  function ParseFromEntities(es: seq<Entity>): (rs: seq<Response>)
    ensures |rs| == |es|
    ensures forall i :: 0 <= i < |es| ==> ToEntity(rs[i]) == es[i]
  {
    if es == [] then [] else [ParseFromEntity(es[0])] + ParseFromEntities(es[1..])
  }

  // ---------------------------------------------------------------------------
  // Search filter
  // ---------------------------------------------------------------------------

  /**
    `IsValidFilter` as written: the guard conjoins `filter == ""` with
    inequalities the empty string always satisfies, so it rejects only "".
   */
  function IsValidFilter(filter: string): (ok: bool)
    ensures ok <==> filter != ""
  {
    !(filter == "" && filter != "name" && filter != "email")
  }

  /** Keys outside the intended list, such as "role", pass the filter check. */
  lemma FilterAcceptsAnyKey()
    ensures IsValidFilter("role") && IsValidFilter("name") && IsValidFilter("registration_date")
    ensures !IsValidFilter("")
  {
  }
}
