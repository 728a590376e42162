/**
  The project operations of the management service
  (internal/service/management/project.go): request-to-entity mapping, the
  search guard, and the calls into `ProjectRepository`. Logging is left out.
 */
module ProjectService {
  import opened Wrappers
  import opened Domain
  import opened Sql
  import opened Store
  import Validation
  import Project
  import ProjectRepository

  /** The entity `CreateProject` stores: an id made from the random bytes, then every request field, dates converted. */
  function NewEntity(req: Project.Request, random: seq<byte>): (p: Project.Entity)
    requires |random| == IdBytes
    ensures Project.ParseFromEntity(p) ==
      Project.Response(GenerateID(random), req.title, req.description, req.finishedAt, req.startedAt, req.managerId)
  {
    Project.Entity(GenerateID(random), req.title, req.description,
                   OnlyDate(req.startedAt), OnlyDate(req.finishedAt), req.managerId)
  }

  /** `CreateProject`: store a new project under a fresh id; the repository's error comes back unchanged. */
  function CreateProject(db: Database, req: Project.Request, random: seq<byte>, fault: Option<DbError>)
    : (o: Outcome<string>)
    requires |random| == IdBytes
    ensures o.result.Ok? <==> fault.None? && GenerateID(random) !in db.projects
    ensures o.result.Ok? ==>
      && o.result.value == GenerateID(random)
      && o.db == db.(projects := db.projects[GenerateID(random) := NewEntity(req, random)])
    ensures o.result.Err? ==> o.db == db
    ensures fault.None? && GenerateID(random) in db.projects ==> o.result == Err(Project.ErrExists)
    ensures fault.Some? ==> o.result == Err(CreateError(Projects, fault.value))
  {
    ProjectRepository.Create(db, NewEntity(req, random), fault)
  }

  /** `GetProject`: the stored project as a response, or the repository's error unchanged. */
  function GetProject(db: Database, id: string, fault: Option<DbError>): (r: Result<Project.Response, Error>)
    ensures r.Ok? <==> fault.None? && id in db.projects
    ensures r.Ok? ==> Project.ToEntity(r.value) == db.projects[id]
    ensures fault.None? && id !in db.projects ==> r == Err(Project.ErrNotFound)
    ensures fault.Some? ==> r == Err(NotFoundError(Projects, fault.value))
  {
    match ProjectRepository.Get(db, id, fault)
    case Ok(p) => Ok(Project.ParseFromEntity(p))
    case Err(e) => Err(e)
  }

  /** The entity `UpdateProject` hands to the repository: the id and the start date stay empty. */
  function UpdateEntity(req: Project.UpdateRequest): (p: Project.Entity)
    ensures p.id == "" && p.startedAt.IsEmpty()
  {
    Project.Entity("", req.title, req.description, OnlyDate(""), OnlyDate(req.finishedAt), req.managerId)
  }

  /** An update request that supplies nothing. */
  predicate NothingSupplied(req: Project.UpdateRequest) {
    req.title == "" && req.description == "" && req.finishedAt == "" && req.managerId == ""
  }

  /** `UpdateProject`: the repository's update of the mapped entity; its error comes back unchanged. */
  function UpdateProject(db: Database, id: string, req: Project.UpdateRequest, fault: Option<DbError>): (o: Outcome<()>)
    ensures NothingSupplied(req) ==> o == Outcome(Ok(()), db)
    ensures !NothingSupplied(req) ==> (o.result.Ok? <==> fault.None? && id in db.projects)
    ensures !NothingSupplied(req) && o.result.Ok? ==>
      o.db == db.(projects := db.projects[id := ProjectRepository.Merge(db.projects[id], UpdateEntity(req))])
    ensures o.result.Err? ==> o.db == db
    ensures !NothingSupplied(req) && fault.None? && id !in db.projects ==> o.result == Err(Project.ErrNotFound)
    ensures !NothingSupplied(req) && fault.Some? ==> o.result == Err(NotFoundError(Projects, fault.value))
  {
    ProjectRepository.Update(db, id, UpdateEntity(req), fault)
  }

  /** `DeleteProject`: the repository's delete; its error comes back unchanged. */
  function DeleteProject(db: Database, id: string, fault: Option<DbError>): (o: Outcome<()>)
    ensures o.result.Ok? <==> fault.None? && id in db.projects
    ensures o.result.Ok? ==> o.db == db.(projects := db.projects - {id})
    ensures o.result.Err? ==> o.db == db
    ensures fault.None? && id !in db.projects ==> o.result == Err(Project.ErrNotFound)
    ensures fault.Some? ==> o.result == Err(NotFoundError(Projects, fault.value))
  {
    ProjectRepository.Delete(db, id, fault)
  }

  /** `ListProjects`: every stored project as a response, in scan order; any failure becomes ErrNotFound. */
  function ListProjects(db: Database, order: seq<string>, fault: Option<DbError>)
    : (r: Result<seq<Project.Response>, Error>)
    ensures r.Ok? <==> fault.None?
    ensures fault.Some? ==> r == Err(Project.ErrNotFound)
    ensures r.Ok? && Lists(order, db.projects) ==>
      && |r.value| == |order| == |db.projects|
      && forall i :: 0 <= i < |order| ==> Project.ToEntity(r.value[i]) == db.projects[order[i]]
  {
    match ProjectRepository.List(db, order, fault)
    case Ok(ps) => Ok(Project.ParseFromEntities(ps))
    case Err(_) => Err(Project.ErrNotFound)
  }

  /** The guard `SearchProjects` applies before it reaches the repository. */
  predicate SearchRejected(filter: string, value: string) {
    value == "" || !Project.IsValidFilter(filter)
  }

  /** The projects a search that passed the guard is looking for, in scan order. */
  function Wanted(db: Database, filter: string, value: string, order: seq<string>): (ps: seq<Project.Entity>)
    ensures forall p :: p in ps ==> ProjectRepository.Value(p, ProjectRepository.PrepareFilterArg(filter)) == value
  {
    Matching(db.projects, order, ProjectRepository.Value, ProjectRepository.PrepareFilterArg(filter), value)
  }

  /**
    `SearchProjects`: an empty value or a key other than "title" and
    "manager" is ErrSearch whatever the store holds; otherwise the matching
    projects as responses, ErrNotFound when there are none, and a failure
    unchanged.
   */
  function SearchProjects(db: Database, filter: string, value: string, order: seq<string>, fault: Option<DbError>)
    : (r: Result<seq<Project.Response>, Error>)
    ensures SearchRejected(filter, value) <==> r == Err(Project.ErrSearch)
    ensures !SearchRejected(filter, value) && fault.Some? ==> r == Err(Driver(fault.value))
    ensures !SearchRejected(filter, value) && fault.None? ==>
      (r == Err(Project.ErrNotFound) <==> Wanted(db, filter, value, order) == [])
    ensures !SearchRejected(filter, value) && fault.None? ==>
      (r.Ok? <==> Wanted(db, filter, value, order) != [])
    ensures r.Ok? ==>
      && |r.value| == |Wanted(db, filter, value, order)|
      && forall i :: 0 <= i < |r.value| ==> Project.ToEntity(r.value[i]) == Wanted(db, filter, value, order)[i]
    ensures r.Ok? && Lists(order, db.projects) ==>
      && (forall k :: k in db.projects && ProjectRepository.Value(db.projects[k], ProjectRepository.PrepareFilterArg(filter)) == value ==>
            Project.ParseFromEntity(db.projects[k]) in r.value)
      && |r.value| == |MatchKeys(db.projects, ProjectRepository.Value, ProjectRepository.PrepareFilterArg(filter), value)|
    ensures !SearchRejected(filter, value) && fault.None? && Lists(order, db.projects) ==>
      (r == Err(Project.ErrNotFound) <==> forall k :: k in db.projects ==> ProjectRepository.Value(db.projects[k], ProjectRepository.PrepareFilterArg(filter)) != value)
  {
    if value == "" || !Project.IsValidFilter(filter) then Err(Project.ErrSearch)
    else
      match ProjectRepository.Search(db, filter, value, order, fault)
      case Ok(ps) =>
        var rs := Project.ParseFromEntities(ps);
        assert forall e :: e in ps ==> Project.ParseFromEntity(e) in rs by {
          forall e | e in ps ensures Project.ParseFromEntity(e) in rs {
            var i :| 0 <= i < |ps| && ps[i] == e;
            Project.ParseFromEntityBijective(e, rs[i]);
          }
        }
        Ok(rs)
      case Err(e) => Err(e)
  }

  // ---------------------------------------------------------------------------
  // Properties across operations
  // ---------------------------------------------------------------------------

  /** A created project can be read back under the id `CreateProject` returned, carrying the request's fields. */
  lemma CreateThenGet(db: Database, req: Project.Request, p: Parsers, random: seq<byte>)
    requires Project.ValidateRequest(req, p) == []
    requires |random| == IdBytes
    requires GenerateID(random) !in db.projects
    ensures CreateProject(db, req, random, None).result == Ok(GenerateID(random))
    ensures GetProject(CreateProject(db, req, random, None).db, GenerateID(random), None) ==
      Ok(Project.Response(GenerateID(random), req.title, req.description, req.finishedAt, req.startedAt, req.managerId))
  {
  }

  /** After a successful delete the project is not found. */
  lemma DeleteThenGet(db: Database, id: string)
    ensures GetProject(DeleteProject(db, id, None).db, id, None) == Err(Project.ErrNotFound)
  {
  }

  /** An update never changes which projects exist, nor any project's id or start date, nor the other tables. */
  lemma UpdateKeepsIdentity(db: Database, id: string, req: Project.UpdateRequest, fault: Option<DbError>)
    ensures UpdateProject(db, id, req, fault).db.projects.Keys == db.projects.Keys
    ensures forall k :: k in db.projects ==>
      && UpdateProject(db, id, req, fault).db.projects[k].id == db.projects[k].id
      && UpdateProject(db, id, req, fault).db.projects[k].startedAt == db.projects[k].startedAt
    ensures UpdateProject(db, id, req, fault).db.users == db.users
    ensures UpdateProject(db, id, req, fault).db.tasks == db.tasks
  {
    ProjectRepository.UpdateKeepsIdentity(db, id, UpdateEntity(req), fault);
    ProjectRepository.UpdateKeepsStart(db, id, UpdateEntity(req), fault);
  }

  /** Over a full scan with no failure, a stored project holding the value is found. */
  lemma StoredMatchFound(db: Database, filter: string, value: string, order: seq<string>, k: string)
    requires !SearchRejected(filter, value)
    requires Lists(order, db.projects)
    requires k in db.projects && ProjectRepository.Value(db.projects[k], ProjectRepository.PrepareFilterArg(filter)) == value
    ensures SearchProjects(db, filter, value, order, None).Ok?
    ensures Project.ParseFromEntity(db.projects[k]) in SearchProjects(db, filter, value, order, None).value
  {
  }

  /** A search that passes the guard always names a real column, so it never meets the empty-column syntax error. */
  lemma GuardedSearchNamesColumn(filter: string, value: string)
    requires !SearchRejected(filter, value)
    ensures ProjectRepository.PrepareFilterArg(filter) in ProjectRepository.Columns
  {
  }

  /** The projects a search by "manager" or "title" looks for hold the value in that field. */
  lemma WantedFields(db: Database, filter: string, value: string, order: seq<string>)
    ensures filter == "manager" ==> forall p :: p in Wanted(db, filter, value, order) ==> p.managerId == value
    ensures filter == "title" ==> forall p :: p in Wanted(db, filter, value, order) ==> p.title == value
  {
    var column := ProjectRepository.PrepareFilterArg(filter);
    assert filter == "manager" ==> column == "manager_id";
    assert filter == "title" ==> column == "title";
    forall p | p in Wanted(db, filter, value, order)
      ensures filter == "manager" ==> p.managerId == value
      ensures filter == "title" ==> p.title == value
    {
      assert ProjectRepository.Value(p, "manager_id") == p.managerId;
      assert ProjectRepository.Value(p, "title") == p.title;
    }
  }

  /** Searching by "manager" returns exactly the projects of that manager, by "title" those with that title. */
  lemma SearchMatchesFilter(db: Database, filter: string, value: string, order: seq<string>, fault: Option<DbError>)
    requires SearchProjects(db, filter, value, order, fault).Ok?
    ensures filter == "manager" ==>
      forall i :: 0 <= i < |SearchProjects(db, filter, value, order, fault).value| ==>
        SearchProjects(db, filter, value, order, fault).value[i].managerId == value
    ensures filter == "title" ==>
      forall i :: 0 <= i < |SearchProjects(db, filter, value, order, fault).value| ==>
        SearchProjects(db, filter, value, order, fault).value[i].title == value
  {
    var r := SearchProjects(db, filter, value, order, fault).value;
    var w := Wanted(db, filter, value, order);
    WantedFields(db, filter, value, order);
    forall i | 0 <= i < |r|
      ensures filter == "manager" ==> r[i].managerId == value
      ensures filter == "title" ==> r[i].title == value
    {
      assert Project.ToEntity(r[i]) == w[i];
      assert w[i] in w;
    }
  }

  /** A create request that passed validation only carries dates that parse with the date layout. */
  lemma ValidatedCreateDatesParse(req: Project.Request, p: Parsers, random: seq<byte>)
    requires |random| == IdBytes
    requires Project.ValidateRequest(req, p) == []
    ensures NewEntity(req, random).startedAt.InLayout(p) && NewEntity(req, random).finishedAt.InLayout(p)
  {
    Project.ValidateRequestEmptyIff(req, p);
  }

  /** An update request that passed validation only binds dates that parse with the date layout. */
  lemma ValidatedUpdateDatesParse(req: Project.UpdateRequest, p: Parsers)
    requires Project.ValidateUpdate(req, p) == []
    ensures forall i :: 0 <= i < |ProjectRepository.PrepareArgs(UpdateEntity(req)).args| ==>
      var a := ProjectRepository.PrepareArgs(UpdateEntity(req)).args[i];
      a.Date? ==> a.date.InLayout(p)
  {
    ProjectRepository.BoundDates(UpdateEntity(req));
    assert !Project.UpdateFieldInvalid(req, p, "finished_at") by {
      assert !Validation.HasError(Project.ValidateUpdate(req, p), "finished_at");
    }
  }

  /** Creating a project keeps every row stored under its own id. */
  lemma CreateKeepsKeys(db: Database, req: Project.Request, random: seq<byte>, fault: Option<DbError>)
    requires |random| == IdBytes
    requires KeysMatch(db)
    ensures KeysMatch(CreateProject(db, req, random, fault).db)
  {
  }

  /** Updating a project keeps every row stored under its own id. */
  lemma UpdateKeepsKeys(db: Database, id: string, req: Project.UpdateRequest, fault: Option<DbError>)
    requires KeysMatch(db)
    ensures KeysMatch(UpdateProject(db, id, req, fault).db)
  {
    UpdateKeepsIdentity(db, id, req, fault);
  }

  /** Deleting a project keeps every remaining row stored under its own id. */
  lemma DeleteKeepsKeys(db: Database, id: string, fault: Option<DbError>)
    requires KeysMatch(db)
    ensures KeysMatch(DeleteProject(db, id, fault).db)
  {
  }
}
