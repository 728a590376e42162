/**
  The task resource (internal/domain/task): entity, requests, response,
  request validation, the search-filter predicate and the sentinel errors.
 */
module Task {
  import opened Domain
  import opened Validation

  datatype Entity = Entity(
    id: string,
    title: string,
    description: string,
    priority: string,
    status: string,
    authorId: string,
    projectId: string,
    createdAt: OnlyDate,
    doneAt: OnlyDate)

  /** Body of a create request. */
  datatype Request = Request(
    title: string,
    description: string,
    priority: string,
    status: string,
    authorId: string,
    projectId: string,
    createdAt: string,
    doneAt: string)

  /** Body of a partial update; an empty string means "not supplied". There is no created_at. */
  datatype UpdateRequest = UpdateRequest(
    title: string,
    description: string,
    priority: string,
    status: string,
    authorId: string,
    projectId: string,
    doneAt: string)

  datatype Response = Response(
    id: string,
    title: string,
    description: string,
    priority: string,
    status: string,
    authorId: string,
    projectId: string,
    createdAt: string,
    doneAt: string)

  const ErrExists: Error := Sentinel(Tasks, Exists)
  const ErrNotFound: Error := Sentinel(Tasks, NotFound)
  const ErrSearch: Error := Sentinel(Tasks, SearchFailed)

  /** The three task sentinels are pairwise distinct. */
  lemma SentinelsDistinct()
    ensures !ErrExists.Is(ErrNotFound) && !ErrExists.Is(ErrSearch) && !ErrNotFound.Is(ErrSearch)
    ensures ErrExists.Message() != ErrNotFound.Message() && ErrExists.Message() != ErrSearch.Message()
    ensures ErrNotFound.Message() != ErrSearch.Message()
  {
  }

  // ---------------------------------------------------------------------------
  // Enumerations
  // ---------------------------------------------------------------------------

  /** The lookup table `isValidPriority` consults; a missing key reads as false. */
  const Priorities: map<string, bool> := map["low" := true, "medium" := true, "high" := true]

  const Statuses: map<string, bool> := map["active" := true, "in_progress" := true, "done" := true]

  /** `isValidPriority`: exact, case-sensitive membership. */
  function IsValidPriority(priority: string): (ok: bool)
    ensures ok <==> priority == "low" || priority == "medium" || priority == "high"
  {
    priority in Priorities && Priorities[priority]
  }

  /** `isValidStatus`: exact, case-sensitive membership. */
  function IsValidStatus(status: string): (ok: bool)
    ensures ok <==> status == "active" || status == "in_progress" || status == "done"
  {
    status in Statuses && Statuses[status]
  }

  lemma EnumerationsRejectVariants()
    ensures !IsValidPriority("") && !IsValidPriority("Low") && !IsValidPriority("urgent")
    ensures !IsValidStatus("") && !IsValidStatus("Done") && !IsValidStatus("in progress")
  {
  }

  // ---------------------------------------------------------------------------
  // Validation
  // ---------------------------------------------------------------------------

  /** Position of each field in the order the checks run. */
  function FieldRank(field: string): nat {
    if field == "title" then 0
    else if field == "description" then 1
    else if field == "created_at" then 2
    else if field == "done_at" then 3
    else if field == "priority" then 4
    else if field == "status" then 5
    else 6
  }

  /** The title is required and at most 100 bytes long. */
  predicate TitleOk(title: string) {
    title != "" && ByteLen(title) <= 100
  }

  /** The description is required and strictly shorter than 200 bytes. */
  predicate DescriptionOk(description: string) {
    description != "" && ByteLen(description) < 200
  }

  predicate PriorityOk(priority: string) {
    priority in {"low", "medium", "high"}
  }

  predicate StatusOk(status: string) {
    status in {"active", "in_progress", "done"}
  }

  /** When a create request is acceptable, stated field by field. */
  predicate RequestValid(req: Request, p: Parsers) {
    && TitleOk(req.title)
    && DescriptionOk(req.description)
    && p.isDate(req.createdAt)
    && p.isDate(req.doneAt)
    && PriorityOk(req.priority)
    && StatusOk(req.status)
  }

  /** The named field of a create request breaks its rule. */
  predicate FieldInvalid(req: Request, p: Parsers, field: string) {
    || (field == "title" && !TitleOk(req.title))
    || (field == "description" && !DescriptionOk(req.description))
    || (field == "created_at" && !p.isDate(req.createdAt))
    || (field == "done_at" && !p.isDate(req.doneAt))
    || (field == "priority" && !PriorityOk(req.priority))
    || (field == "status" && !StatusOk(req.status))
  }

  /** The two title checks of a create request; they never both fire. */
  function TitleErrors(title: string): (errs: seq<ErrorResponse>)
    ensures SingleField(errs, "title")
    ensures errs != [] <==> !TitleOk(title)
    ensures title == "" ==> errs == [ErrorResponse("title is required", "title")]
    ensures title != "" ==> forall i :: 0 <= i < |errs| ==> errs[i].message != "title is required"
  {
    Check(title == "", "title is required", "title")
    + Check(ByteLen(title) > 100, "title must be less than 100 characters", "title")
  }

  /** The two description checks of a create request; they never both fire. */
  function DescriptionErrors(description: string): (errs: seq<ErrorResponse>)
    ensures SingleField(errs, "description")
    ensures errs != [] <==> !DescriptionOk(description)
    ensures description == "" ==> errs == [ErrorResponse("description is required", "description")]
    ensures description != "" ==> forall i :: 0 <= i < |errs| ==> errs[i].message != "description is required"
  {
    Check(description == "", "description is required", "description")
    + Check(ByteLen(description) >= 200, "description must be less than 200 characters", "description")
  }

  /**
    `Request.Validate`: every check runs, in the order title, description,
    created_at, done_at, priority, status; a field is named exactly when it
    breaks its rule.
   */
  function ValidateRequest(req: Request, p: Parsers): (errs: seq<ErrorResponse>)
    ensures forall field :: HasError(errs, field) <==> FieldInvalid(req, p, field)
  {
    var a := TitleErrors(req.title);
    var b := DescriptionErrors(req.description);
    var c := Check(!p.isDate(req.createdAt), "invalid created_at format", "created_at");
    var d := Check(!p.isDate(req.doneAt), "invalid done_at format", "done_at");
    var e := Check(!IsValidPriority(req.priority), "invalid priority value", "priority");
    var f := Check(!IsValidStatus(req.status), "invalid status value", "status");
    HasErrorOfSix(a, "title", b, "description", c, "created_at", d, "done_at", e, "priority", f, "status");
    a + b + c + d + e + f
  }

  /** A create request is accepted exactly when every field keeps its rule. */
  lemma ValidateRequestEmptyIff(req: Request, p: Parsers)
    ensures ValidateRequest(req, p) == [] <==> RequestValid(req, p)
  {
    var a := TitleErrors(req.title);
    var b := DescriptionErrors(req.description);
    var c := Check(!p.isDate(req.createdAt), "invalid created_at format", "created_at");
    var d := Check(!p.isDate(req.doneAt), "invalid done_at format", "done_at");
    var e := Check(!IsValidPriority(req.priority), "invalid priority value", "priority");
    var f := Check(!IsValidStatus(req.status), "invalid status value", "status");
    assert ValidateRequest(req, p) == [] <==> a == [] && b == [] && c == [] && d == [] && e == [] && f == [] by {
      assert ValidateRequest(req, p) == a + b + c + d + e + f;
      EmptyOfSix(a, b, c, d, e, f);
    }
    assert a == [] && b == [] <==> TitleOk(req.title) && DescriptionOk(req.description);
    assert e == [] && f == [] <==> PriorityOk(req.priority) && StatusOk(req.status);
  }

  /** Any six single-field groups in check order form an ordered list of at most six errors. */
  lemma OrderedGroups(a: seq<ErrorResponse>, b: seq<ErrorResponse>, c: seq<ErrorResponse>,
                      d: seq<ErrorResponse>, e: seq<ErrorResponse>, f: seq<ErrorResponse>)
    requires SingleField(a, "title") && SingleField(b, "description") && SingleField(c, "created_at")
    requires SingleField(d, "done_at") && SingleField(e, "priority") && SingleField(f, "status")
    ensures Ordered(a + b + c + d + e + f, FieldRank, 6)
    ensures |a + b + c + d + e + f| <= 6
  {
    assert FieldRank("title") == 0 && FieldRank("description") == 1 && FieldRank("created_at") == 2;
    assert FieldRank("done_at") == 3 && FieldRank("priority") == 4 && FieldRank("status") == 5;
    OrderedOfSix(a, "title", b, "description", c, "created_at", d, "done_at", e, "priority", f, "status", FieldRank, 6);
    OrderedBound(a + b + c + d + e + f, FieldRank, 6);
  }

  /** Errors come in the order the checks run, each field at most once, so at most six. */
  lemma ValidateRequestOrdered(req: Request, p: Parsers)
    ensures Ordered(ValidateRequest(req, p), FieldRank, 6)
    ensures |ValidateRequest(req, p)| <= 6
  {
    var a := TitleErrors(req.title);
    var b := DescriptionErrors(req.description);
    var c := Check(!p.isDate(req.createdAt), "invalid created_at format", "created_at");
    var d := Check(!p.isDate(req.doneAt), "invalid done_at format", "done_at");
    var e := Check(!IsValidPriority(req.priority), "invalid priority value", "priority");
    var f := Check(!IsValidStatus(req.status), "invalid status value", "status");
    assert ValidateRequest(req, p) == a + b + c + d + e + f;
    OrderedGroups(a, b, c, d, e, f);
  }

  /** A missing title yields exactly one title error, "title is required". */
  lemma MissingTitleReportedOnce(req: Request, p: Parsers)
    requires req.title == ""
    ensures var errs := ValidateRequest(req, p);
      && |errs| > 0 && errs[0] == ErrorResponse("title is required", "title")
      && forall i :: 1 <= i < |errs| ==> errs[i].field != "title"
  {
    ValidateRequestOrdered(req, p);
    OrderedBound(ValidateRequest(req, p), FieldRank, 6);
  }

  /**
    The checks never stop early: a request with every field empty, checked
    with parsers that reject the empty string, gets all six errors in order.
   */
  lemma EmptyRequestReportsEveryField(req: Request, p: Parsers)
    requires p.RejectsEmpty()
    requires req.title == "" && req.description == "" && req.createdAt == "" && req.doneAt == ""
    requires req.priority == "" && req.status == ""
    ensures ValidateRequest(req, p) == [
      ErrorResponse("title is required", "title"),
      ErrorResponse("description is required", "description"),
      ErrorResponse("invalid created_at format", "created_at"),
      ErrorResponse("invalid done_at format", "done_at"),
      ErrorResponse("invalid priority value", "priority"),
      ErrorResponse("invalid status value", "status")]
  {
  }

  /** A title of 100 ASCII characters passes; one of 101 is reported. */
  lemma TitleBoundary(req: Request, p: Parsers)
    requires IsAscii(req.title)
    ensures |req.title| == 100 ==> !HasError(ValidateRequest(req, p), "title")
    ensures |req.title| == 101 ==> HasError(ValidateRequest(req, p), "title")
  {
    assert HasError(ValidateRequest(req, p), "title") <==> !TitleOk(req.title);
    AsciiByteLen(req.title);
  }

  /** A description of 199 ASCII characters passes; one of 200 is reported. */
  lemma DescriptionBoundary(req: Request, p: Parsers)
    requires IsAscii(req.description)
    ensures |req.description| == 199 ==> !HasError(ValidateRequest(req, p), "description")
    ensures |req.description| == 200 ==> HasError(ValidateRequest(req, p), "description")
  {
    assert HasError(ValidateRequest(req, p), "description") <==> !DescriptionOk(req.description);
    AsciiByteLen(req.description);
  }

  // ---------------------------------------------------------------------------
  // Partial-update validation
  // ---------------------------------------------------------------------------

  /**
    The named field of an update request carries a value that breaks the
    rule the same field has in a create request; created_at cannot be updated.
   */
  predicate UpdateFieldInvalid(req: UpdateRequest, p: Parsers, field: string) {
    || (field == "title" && req.title != "" && !TitleOk(req.title))
    || (field == "description" && req.description != "" && !DescriptionOk(req.description))
    || (field == "done_at" && req.doneAt != "" && !p.isDate(req.doneAt))
    || (field == "priority" && req.priority != "" && !PriorityOk(req.priority))
    || (field == "status" && req.status != "" && !StatusOk(req.status))
  }

  /**
    `UpdateRequest.Validate`: a supplied field is held to the same rule as in
    a create request, and a field left empty is never reported.
   */
  function ValidateUpdate(req: UpdateRequest, p: Parsers): (errs: seq<ErrorResponse>)
    ensures forall field :: HasError(errs, field) <==> UpdateFieldInvalid(req, p, field)
  {
    var a := SuppliedCheck(req.title, ByteLen(req.title) <= 100, "title must be less than 100 characters", "title");
    var b := SuppliedCheck(req.description, ByteLen(req.description) < 200, "description must be less than 200 characters", "description");
    var c := SuppliedCheck(req.doneAt, p.isDate(req.doneAt), "invalid done_at format", "done_at");
    var d := SuppliedCheck(req.priority, IsValidPriority(req.priority), "invalid priority value", "priority");
    var e := SuppliedCheck(req.status, IsValidStatus(req.status), "invalid status value", "status");
    HasErrorOfFive(a, "title", b, "description", c, "done_at", d, "priority", e, "status");
    a + b + c + d + e
  }

  /** The create request carrying an update's values, with `createdAt` for the field an update lacks. */
  function AsRequest(req: UpdateRequest, createdAt: string): (r: Request)
    ensures r.title == req.title && r.description == req.description && r.doneAt == req.doneAt
    ensures r.priority == req.priority && r.status == req.status && r.createdAt == createdAt
  {
    Request(req.title, req.description, req.priority, req.status, req.authorId, req.projectId, createdAt, req.doneAt)
  }

  /**
    An update reports a field exactly when the field is one an update checks,
    the request supplies it, and a create request with the same value would
    report it too.
   */
  lemma UpdateAgreesWithCreate(req: UpdateRequest, p: Parsers, createdAt: string, field: string)
    ensures HasError(ValidateUpdate(req, p), field) <==>
      && field in {"title", "description", "done_at", "priority", "status"}
      && FieldInvalid(AsRequest(req, createdAt), p, field)
      && !(field == "title" && req.title == "")
      && !(field == "description" && req.description == "")
      && !(field == "done_at" && req.doneAt == "")
      && !(field == "priority" && req.priority == "")
      && !(field == "status" && req.status == "")
  {
  }

  /** An update that supplies nothing is accepted. */
  lemma EmptyUpdateValid(req: UpdateRequest, p: Parsers)
    requires req.title == "" && req.description == "" && req.doneAt == ""
    requires req.priority == "" && req.status == ""
    ensures ValidateUpdate(req, p) == []
  {
  }

  /** Update errors come in check order and only name title, description, done_at, priority or status. */
  lemma ValidateUpdateOrdered(req: UpdateRequest, p: Parsers)
    ensures Ordered(ValidateUpdate(req, p), FieldRank, 6)
    ensures forall i :: 0 <= i < |ValidateUpdate(req, p)| ==>
      ValidateUpdate(req, p)[i].field in {"title", "description", "done_at", "priority", "status"}
    ensures |ValidateUpdate(req, p)| <= 5
  {
    var errs := ValidateUpdate(req, p);
    var a := SuppliedCheck(req.title, ByteLen(req.title) <= 100, "title must be less than 100 characters", "title");
    var b := SuppliedCheck(req.description, ByteLen(req.description) < 200, "description must be less than 200 characters", "description");
    var c := SuppliedCheck(req.doneAt, p.isDate(req.doneAt), "invalid done_at format", "done_at");
    var d := SuppliedCheck(req.priority, IsValidPriority(req.priority), "invalid priority value", "priority");
    var e := SuppliedCheck(req.status, IsValidStatus(req.status), "invalid status value", "status");
    assert errs == a + b + c + d + e;
    assert FieldRank("title") == 0 && FieldRank("description") == 1;
    assert FieldRank("done_at") == 3 && FieldRank("priority") == 4 && FieldRank("status") == 5;
    OrderedOfFive(a, "title", b, "description", c, "done_at", d, "priority", e, "status", FieldRank, 6);
    forall i | 0 <= i < |errs| ensures errs[i].field in {"title", "description", "done_at", "priority", "status"} {
      assert HasError(errs, errs[i].field);
    }
    OrderedBound(errs, FieldRank, 6);
  }

  /** An update never reports a field as required. */
  lemma ValidateUpdateNeverRequires(req: UpdateRequest, p: Parsers)
    ensures forall i :: 0 <= i < |ValidateUpdate(req, p)| ==>
      ValidateUpdate(req, p)[i].message != "title is required"
      && ValidateUpdate(req, p)[i].message != "description is required"
  {
    var errs := ValidateUpdate(req, p);
    var a := SuppliedCheck(req.title, ByteLen(req.title) <= 100, "title must be less than 100 characters", "title");
    var b := SuppliedCheck(req.description, ByteLen(req.description) < 200, "description must be less than 200 characters", "description");
    var c := SuppliedCheck(req.doneAt, p.isDate(req.doneAt), "invalid done_at format", "done_at");
    var d := SuppliedCheck(req.priority, IsValidPriority(req.priority), "invalid priority value", "priority");
    var e := SuppliedCheck(req.status, IsValidStatus(req.status), "invalid status value", "status");
    assert errs == a + b + c + d + e;
    forall i | 0 <= i < |errs|
      ensures errs[i].message != "title is required" && errs[i].message != "description is required"
    {
    }
  }

  // ---------------------------------------------------------------------------
  // Responses
  // ---------------------------------------------------------------------------

  /** `ParseFromEntity`: the response carries every field of the entity, dates as their text. */
  function ParseFromEntity(e: Entity): (r: Response)
    ensures ToEntity(r) == e
  {
    Response(e.id, e.title, e.description, e.priority, e.status, e.authorId, e.projectId,
             e.createdAt.String(), e.doneAt.String())
  }

  /** The entity a response describes; the inverse of `ParseFromEntity`. */
  function ToEntity(r: Response): Entity {
    Entity(r.id, r.title, r.description, r.priority, r.status, r.authorId, r.projectId,
           OnlyDate(r.createdAt), OnlyDate(r.doneAt))
  }

  /** Responses and entities correspond one to one. */
  lemma ParseFromEntityBijective(e: Entity, r: Response)
    ensures ParseFromEntity(e) == r <==> ToEntity(r) == e
  {
  }

  /** `ParseFromEntities`: one response per entity, in the same order. */
  function ParseFromEntities(es: seq<Entity>): (rs: seq<Response>)
    ensures |rs| == |es|
    ensures forall i :: 0 <= i < |es| ==> ToEntity(rs[i]) == es[i]
  {
    if es == [] then [] else [ParseFromEntity(es[0])] + ParseFromEntities(es[1..])
  }

  // ---------------------------------------------------------------------------
  // Search filter
  // ---------------------------------------------------------------------------

  /**
    `IsValidFilter` as written: the guard conjoins `filter == ""` with
    inequalities the empty string always satisfies, so it rejects only "".
   */
  function IsValidFilter(filter: string): (ok: bool)
    ensures ok <==> filter != ""
  {
    !(filter == "" && filter != "title" && filter != "priority" && filter != "status"
      && filter != "author_id" && filter != "project_id")
  }

  /** Keys outside the intended list pass the filter check. */
  lemma FilterAcceptsAnyKey()
    ensures IsValidFilter("user_id") && IsValidFilter("xyz") && IsValidFilter("assignee")
    ensures !IsValidFilter("")
  {
  }
}
