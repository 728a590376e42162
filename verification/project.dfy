/**
  The project resource (internal/domain/project): entity, requests, response,
  request validation, the search-filter predicate and the sentinel errors.
 */
module Project {
  import opened Domain
  import opened Validation

  datatype Entity = Entity(
    id: string,
    title: string,
    description: string,
    startedAt: OnlyDate,
    finishedAt: OnlyDate,
    managerId: string)

  /** Body of a create request. */
  datatype Request = Request(
    title: string,
    description: string,
    finishedAt: string,
    startedAt: string,
    managerId: string)

  /** Body of a partial update; an empty string means "not supplied". There is no started_at. */
  datatype UpdateRequest = UpdateRequest(
    title: string,
    description: string,
    finishedAt: string,
    managerId: string)

  datatype Response = Response(
    id: string,
    title: string,
    description: string,
    finishedAt: string,
    startedAt: string,
    managerId: string)

  const ErrExists: Error := Sentinel(Projects, Exists)
  const ErrNotFound: Error := Sentinel(Projects, NotFound)
  const ErrSearch: Error := Sentinel(Projects, SearchFailed)

  /** The three project sentinels are pairwise distinct and carry their own messages. */
  lemma SentinelsDistinct()
    ensures !ErrExists.Is(ErrNotFound) && !ErrExists.Is(ErrSearch) && !ErrNotFound.Is(ErrSearch)
    ensures ErrExists.Message() == "project already exists"
    ensures ErrNotFound.Message() == "project not found"
    ensures ErrSearch.Message() == "project search error"
  {
  }

  // ---------------------------------------------------------------------------
  // Validation
  // ---------------------------------------------------------------------------

  /** Position of each field in the order the checks run. */
  function FieldRank(field: string): nat {
    if field == "title" then 0
    else if field == "description" then 1
    else if field == "started_at" then 2
    else if field == "finished_at" then 3
    else 4
  }

  /** The title may be empty and is at most 100 bytes long. */
  predicate TitleOk(title: string) {
    ByteLen(title) <= 100
  }

  /** The description may be empty and is at most 200 bytes long. */
  predicate DescriptionOk(description: string) {
    ByteLen(description) <= 200
  }

  /** When a create request is acceptable, stated field by field. */
  predicate RequestValid(req: Request, p: Parsers) {
    && TitleOk(req.title)
    && DescriptionOk(req.description)
    && p.isDate(req.startedAt)
    && p.isDate(req.finishedAt)
  }

  /** The named field of a create request breaks its rule. */
  predicate FieldInvalid(req: Request, p: Parsers, field: string) {
    || (field == "title" && !TitleOk(req.title))
    || (field == "description" && !DescriptionOk(req.description))
    || (field == "started_at" && !p.isDate(req.startedAt))
    || (field == "finished_at" && !p.isDate(req.finishedAt))
  }

  /**
    `Request.Validate`: every check runs, in the order title, description,
    started_at, finished_at; a field is named exactly when it breaks its rule.
    Neither title nor description is required.
   */
  function ValidateRequest(req: Request, p: Parsers): (errs: seq<ErrorResponse>)
    ensures forall field :: HasError(errs, field) <==> FieldInvalid(req, p, field)
  {
    var a := Check(ByteLen(req.title) > 100, "title must be less than 100 characters", "title");
    var b := Check(ByteLen(req.description) > 200, "description must be less than 200 characters", "description");
    var c := Check(!p.isDate(req.startedAt), "invalid started_at format", "started_at");
    var d := Check(!p.isDate(req.finishedAt), "invalid finished_at format", "finished_at");
    HasErrorOfFour(a, "title", b, "description", c, "started_at", d, "finished_at");
    a + b + c + d
  }

  /** A create request is accepted exactly when every field keeps its rule. */
  lemma ValidateRequestEmptyIff(req: Request, p: Parsers)
    ensures ValidateRequest(req, p) == [] <==> RequestValid(req, p)
  {
    var errs := ValidateRequest(req, p);
    if errs != [] {
      assert HasError(errs, errs[0].field);
    }
    if !RequestValid(req, p) {
      var field :=
        if !TitleOk(req.title) then "title"
        else if !DescriptionOk(req.description) then "description"
        else if !p.isDate(req.startedAt) then "started_at"
        else "finished_at";
      assert FieldInvalid(req, p, field);
      assert HasError(errs, field);
    }
  }

  /** Any four single-field groups in check order form an ordered list of at most four errors. */
  lemma OrderedGroups(a: seq<ErrorResponse>, b: seq<ErrorResponse>, c: seq<ErrorResponse>, d: seq<ErrorResponse>)
    requires SingleField(a, "title") && SingleField(b, "description")
    requires SingleField(c, "started_at") && SingleField(d, "finished_at")
    ensures Ordered(a + b + c + d, FieldRank, 4)
    ensures |a + b + c + d| <= 4
  {
    assert FieldRank("title") == 0 && FieldRank("description") == 1;
    assert FieldRank("started_at") == 2 && FieldRank("finished_at") == 3;
    OrderedOfFour(a, "title", b, "description", c, "started_at", d, "finished_at", FieldRank, 4);
    OrderedBound(a + b + c + d, FieldRank, 4);
  }

  /** Errors come in the order the checks run, each field at most once, so at most four. */
  lemma ValidateRequestOrdered(req: Request, p: Parsers)
    ensures Ordered(ValidateRequest(req, p), FieldRank, 4)
    ensures |ValidateRequest(req, p)| <= 4
  {
    var a := Check(ByteLen(req.title) > 100, "title must be less than 100 characters", "title");
    var b := Check(ByteLen(req.description) > 200, "description must be less than 200 characters", "description");
    var c := Check(!p.isDate(req.startedAt), "invalid started_at format", "started_at");
    var d := Check(!p.isDate(req.finishedAt), "invalid finished_at format", "finished_at");
    OrderedGroups(a, b, c, d);
  }

  /** An empty title and an empty description are accepted; only dates can be missing. */
  lemma EmptyTextAccepted(req: Request, p: Parsers)
    requires req.title == "" && req.description == ""
    ensures !HasError(ValidateRequest(req, p), "title")
    ensures !HasError(ValidateRequest(req, p), "description")
  {
  }

  /** A description of 200 ASCII characters passes; one of 201 is reported. */
  lemma DescriptionBoundary(req: Request, p: Parsers)
    requires IsAscii(req.description)
    ensures |req.description| == 200 ==> !HasError(ValidateRequest(req, p), "description")
    ensures |req.description| == 201 ==> HasError(ValidateRequest(req, p), "description")
  {
    AsciiByteLen(req.description);
  }

  // ---------------------------------------------------------------------------
  // Partial-update validation
  // ---------------------------------------------------------------------------

  /** The named field of an update request carries a value that breaks its rule. */
  predicate UpdateFieldInvalid(req: UpdateRequest, p: Parsers, field: string) {
    || (field == "title" && req.title != "" && !TitleOk(req.title))
    || (field == "description" && req.description != "" && !DescriptionOk(req.description))
    || (field == "finished_at" && req.finishedAt != "" && !p.isDate(req.finishedAt))
  }

  /**
    `UpdateRequest.Validate`: a supplied title, description or finished_at is
    held to its create rule; an empty field and the manager are never reported.
   */
  function ValidateUpdate(req: UpdateRequest, p: Parsers): (errs: seq<ErrorResponse>)
    ensures forall field :: HasError(errs, field) <==> UpdateFieldInvalid(req, p, field)
  {
    var a := SuppliedCheck(req.title, ByteLen(req.title) <= 100, "title must be less than 100 characters", "title");
    var b := SuppliedCheck(req.description, ByteLen(req.description) <= 200, "description must be less than 200 characters", "description");
    var c := SuppliedCheck(req.finishedAt, p.isDate(req.finishedAt), "invalid finished_at format", "finished_at");
    HasErrorOfThree(a, "title", b, "description", c, "finished_at");
    a + b + c
  }

  /** The create request carrying an update's values, with `startedAt` for the field an update lacks. */
  function AsRequest(req: UpdateRequest, startedAt: string): (r: Request)
    ensures r.title == req.title && r.description == req.description
    ensures r.finishedAt == req.finishedAt && r.startedAt == startedAt
  {
    Request(req.title, req.description, req.finishedAt, startedAt, req.managerId)
  }

  /** An update reports a supplied field exactly when a create request with the same value would. */
  lemma UpdateAgreesWithCreate(req: UpdateRequest, p: Parsers, startedAt: string, field: string)
    ensures HasError(ValidateUpdate(req, p), field) <==>
      && field in {"title", "description", "finished_at"}
      && FieldInvalid(AsRequest(req, startedAt), p, field)
      && !(field == "finished_at" && req.finishedAt == "")
  {
  }

  /** An update that supplies nothing is accepted, and so is one that only names a manager. */
  lemma EmptyUpdateValid(req: UpdateRequest, p: Parsers)
    requires req.title == "" && req.description == "" && req.finishedAt == ""
    ensures ValidateUpdate(req, p) == []
  {
  }

  /** Update errors come in check order and at most three. */
  lemma ValidateUpdateOrdered(req: UpdateRequest, p: Parsers)
    ensures Ordered(ValidateUpdate(req, p), FieldRank, 4)
    ensures |ValidateUpdate(req, p)| <= 3
  {
    var errs := ValidateUpdate(req, p);
    var a := SuppliedCheck(req.title, ByteLen(req.title) <= 100, "title must be less than 100 characters", "title");
    var b := SuppliedCheck(req.description, ByteLen(req.description) <= 200, "description must be less than 200 characters", "description");
    var c := SuppliedCheck(req.finishedAt, p.isDate(req.finishedAt), "invalid finished_at format", "finished_at");
    assert errs == a + b + c;
    assert FieldRank("title") == 0 && FieldRank("description") == 1 && FieldRank("finished_at") == 3;
    OrderedOfThree(a, "title", b, "description", c, "finished_at", FieldRank, 4);
  }

  // ---------------------------------------------------------------------------
  // Responses
  // ---------------------------------------------------------------------------

  /** `ParseFromEntity`: the response carries every field of the entity, dates as their text. */
  function ParseFromEntity(e: Entity): (r: Response)
    ensures ToEntity(r) == e
  {
    Response(e.id, e.title, e.description, e.finishedAt.String(), e.startedAt.String(), e.managerId)
  }

  /** The entity a response describes; the inverse of `ParseFromEntity`. */
  function ToEntity(r: Response): Entity {
    Entity(r.id, r.title, r.description, OnlyDate(r.startedAt), OnlyDate(r.finishedAt), r.managerId)
  }

  /** Responses and entities correspond one to one. */
  lemma ParseFromEntityBijective(e: Entity, r: Response)
    ensures ParseFromEntity(e) == r <==> ToEntity(r) == e
  {
  }

  /** `ParseFromEntities`: one response per entity, in the same order. */
  function ParseFromEntities(es: seq<Entity>): (rs: seq<Response>)
    ensures |rs| == |es|
    ensures forall i :: 0 <= i < |es| ==> ToEntity(rs[i]) == es[i]
  {
    if es == [] then [] else [ParseFromEntity(es[0])] + ParseFromEntities(es[1..])
  }

  // ---------------------------------------------------------------------------
  // Search filter
  // ---------------------------------------------------------------------------

  /** `IsValidFilter`: only the keys "title" and "manager" are accepted. */
  function IsValidFilter(filter: string): (ok: bool)
    ensures ok <==> filter == "title" || filter == "manager"
  {
    if filter != "" && filter != "title" && filter != "manager" then false
    else if filter == "" then false
    else true
  }

  /** The column name itself is not an accepted key. */
  lemma FilterRejectsColumnName()
    ensures !IsValidFilter("manager_id") && !IsValidFilter("") && !IsValidFilter("description")
  {
  }
}
