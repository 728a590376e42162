/**
  The task operations of the management service
  (internal/service/management/tasks.go): request-to-entity mapping, the
  search guard, and the calls into `TaskRepository`. Logging is left out.
 */
module TaskService {
  import opened Wrappers
  import opened Domain
  import opened Sql
  import opened Store
  import Validation
  import Task
  import TaskRepository

  /** The entity `CreateTask` stores: an id made from the random bytes, then every request field, dates converted. */
  function NewEntity(req: Task.Request, random: seq<byte>): (t: Task.Entity)
    requires |random| == IdBytes
    ensures Task.ParseFromEntity(t) ==
      Task.Response(GenerateID(random), req.title, req.description, req.priority, req.status,
                    req.authorId, req.projectId, req.createdAt, req.doneAt)
  {
    Task.Entity(GenerateID(random), req.title, req.description, req.priority, req.status,
                req.authorId, req.projectId, OnlyDate(req.createdAt), OnlyDate(req.doneAt))
  }

  /** `CreateTask`: store a new task under a fresh id; the repository's error comes back unchanged. */
  function CreateTask(db: Database, req: Task.Request, random: seq<byte>, fault: Option<DbError>): (o: Outcome<string>)
    requires |random| == IdBytes
    ensures o.result.Ok? <==> fault.None? && GenerateID(random) !in db.tasks
    ensures o.result.Ok? ==>
      && o.result.value == GenerateID(random)
      && o.db == db.(tasks := db.tasks[GenerateID(random) := NewEntity(req, random)])
    ensures o.result.Err? ==> o.db == db
    ensures fault.None? && GenerateID(random) in db.tasks ==> o.result == Err(Task.ErrExists)
    ensures fault.Some? ==> o.result == Err(CreateError(Tasks, fault.value))
  {
    TaskRepository.Create(db, NewEntity(req, random), fault)
  }

  /** `GetTask`: the stored task as a response, or the repository's error unchanged. */
  function GetTask(db: Database, id: string, fault: Option<DbError>): (r: Result<Task.Response, Error>)
    ensures r.Ok? <==> fault.None? && id in db.tasks
    ensures r.Ok? ==> Task.ToEntity(r.value) == db.tasks[id]
    ensures fault.None? && id !in db.tasks ==> r == Err(Task.ErrNotFound)
    ensures fault.Some? ==> r == Err(NotFoundError(Tasks, fault.value))
  {
    match TaskRepository.Get(db, id, fault)
    case Ok(t) => Ok(Task.ParseFromEntity(t))
    case Err(e) => Err(e)
  }

  /**
    The entity `UpdateTask` hands to the repository. The id and the creation
    date stay empty, and the project id is taken from the request's author id.
   */
  function UpdateEntity(req: Task.UpdateRequest): (t: Task.Entity)
    ensures t.id == "" && t.createdAt.IsEmpty()
    ensures t.projectId == req.authorId
  {
    Task.Entity("", req.title, req.description, req.priority, req.status,
                req.authorId, req.authorId, OnlyDate(""), OnlyDate(req.doneAt))
  }

  /** An update request that supplies none of the fields `UpdateTask` passes on; its project id is never read. */
  predicate NothingSupplied(req: Task.UpdateRequest) {
    && req.title == "" && req.description == "" && req.priority == "" && req.status == ""
    && req.authorId == "" && req.doneAt == ""
  }

  /** `UpdateTask`: the repository's update of the mapped entity; its error comes back unchanged. */
  function UpdateTask(db: Database, id: string, req: Task.UpdateRequest, fault: Option<DbError>): (o: Outcome<()>)
    ensures NothingSupplied(req) ==> o == Outcome(Ok(()), db)
    ensures !NothingSupplied(req) ==> (o.result.Ok? <==> fault.None? && id in db.tasks)
    ensures !NothingSupplied(req) && o.result.Ok? ==>
      o.db == db.(tasks := db.tasks[id := TaskRepository.Merge(db.tasks[id], UpdateEntity(req))])
    ensures o.result.Err? ==> o.db == db
    ensures !NothingSupplied(req) && fault.None? && id !in db.tasks ==> o.result == Err(Task.ErrNotFound)
    ensures !NothingSupplied(req) && fault.Some? ==> o.result == Err(NotFoundError(Tasks, fault.value))
  {
    TaskRepository.Update(db, id, UpdateEntity(req), fault)
  }

  /** `DeleteTask`: the repository's delete; its error comes back unchanged. */
  function DeleteTask(db: Database, id: string, fault: Option<DbError>): (o: Outcome<()>)
    ensures o.result.Ok? <==> fault.None? && id in db.tasks
    ensures o.result.Ok? ==> o.db == db.(tasks := db.tasks - {id})
    ensures o.result.Err? ==> o.db == db
    ensures fault.None? && id !in db.tasks ==> o.result == Err(Task.ErrNotFound)
    ensures fault.Some? ==> o.result == Err(NotFoundError(Tasks, fault.value))
  {
    TaskRepository.Delete(db, id, fault)
  }

  /** `ListTasks`: every stored task as a response, in scan order; a failure comes back unchanged. */
  function ListTasks(db: Database, order: seq<string>, fault: Option<DbError>): (r: Result<seq<Task.Response>, Error>)
    ensures r.Ok? <==> fault.None?
    ensures fault.Some? ==> r == Err(Driver(fault.value))
    ensures r.Ok? && Lists(order, db.tasks) ==>
      && |r.value| == |order| == |db.tasks|
      && forall i :: 0 <= i < |order| ==> Task.ToEntity(r.value[i]) == db.tasks[order[i]]
  {
    match TaskRepository.List(db, order, fault)
    case Ok(ts) => Ok(Task.ParseFromEntities(ts))
    case Err(e) => Err(e)
  }

  /** The guard `SearchTasks` applies before it reaches the repository. */
  predicate SearchRejected(filter: string, value: string) {
    value == "" || !Task.IsValidFilter(filter)
  }

  /**
    `SearchTasks`: an empty value or a rejected filter is ErrSearch whatever
    the store holds; otherwise the repository's search, its error unchanged.
   */
  function SearchTasks(db: Database, filter: string, value: string, order: seq<string>, fault: Option<DbError>)
    : (r: Result<seq<Task.Response>, Error>)
    ensures SearchRejected(filter, value) <==> r == Err(Task.ErrSearch)
    ensures !SearchRejected(filter, value) && TaskRepository.PrepareFilterArg(filter) == "" ==>
      r == Err(Driver(SyntaxError))
    ensures !SearchRejected(filter, value) && TaskRepository.PrepareFilterArg(filter) != "" ==>
      r == Err(Driver(UndefinedColumn(TaskRepository.PrepareFilterArg(filter))))
  {
    if value == "" || !Task.IsValidFilter(filter) then Err(Task.ErrSearch)
    else
      match TaskRepository.Search(db, filter, value, order, fault)
      case Ok(ts) => Ok(Task.ParseFromEntities(ts))
      case Err(e) => Err(e)
  }

  // ---------------------------------------------------------------------------
  // Properties across operations
  // ---------------------------------------------------------------------------

  /** A created task can be read back under the id `CreateTask` returned, carrying the request's fields. */
  lemma CreateThenGet(db: Database, req: Task.Request, p: Parsers, random: seq<byte>)
    requires Task.ValidateRequest(req, p) == []
    requires |random| == IdBytes
    requires GenerateID(random) !in db.tasks
    ensures CreateTask(db, req, random, None).result == Ok(GenerateID(random))
    ensures GetTask(CreateTask(db, req, random, None).db, GenerateID(random), None) ==
      Ok(Task.Response(GenerateID(random), req.title, req.description, req.priority, req.status,
                       req.authorId, req.projectId, req.createdAt, req.doneAt))
  {
  }

  /** After a successful delete the task is not found. */
  lemma DeleteThenGet(db: Database, id: string)
    ensures GetTask(DeleteTask(db, id, None).db, id, None) == Err(Task.ErrNotFound)
  {
  }

  /** An update is blind to the request's project id: the author id is what reaches the project column. */
  lemma UpdateIgnoresProjectId(db: Database, id: string, req: Task.UpdateRequest, projectId: string, fault: Option<DbError>)
    ensures UpdateTask(db, id, req, fault) == UpdateTask(db, id, req.(projectId := projectId), fault)
    ensures req.authorId != "" && id in db.tasks ==>
      && UpdateTask(db, id, req, None).db.tasks[id].projectId == req.authorId
      && UpdateTask(db, id, req, None).db.tasks[id].authorId == req.authorId
  {
  }

  /** An update that supplies only a project id changes nothing and reports success. */
  lemma ProjectIdAloneIsNoOp(db: Database, id: string, req: Task.UpdateRequest, fault: Option<DbError>)
    requires NothingSupplied(req) && req.projectId != ""
    ensures UpdateTask(db, id, req, fault) == Outcome(Ok(()), db)
  {
  }

  /** An update never changes which tasks exist, nor any task's id or creation date, nor the other tables. */
  lemma UpdateKeepsIdentity(db: Database, id: string, req: Task.UpdateRequest, fault: Option<DbError>)
    ensures UpdateTask(db, id, req, fault).db.tasks.Keys == db.tasks.Keys
    ensures forall k :: k in db.tasks ==>
      && UpdateTask(db, id, req, fault).db.tasks[k].id == db.tasks[k].id
      && UpdateTask(db, id, req, fault).db.tasks[k].createdAt == db.tasks[k].createdAt
    ensures UpdateTask(db, id, req, fault).db.users == db.users
    ensures UpdateTask(db, id, req, fault).db.projects == db.projects
  {
    TaskRepository.UpdateKeepsIdentity(db, id, UpdateEntity(req), fault);
    TaskRepository.UpdateKeepsCreated(db, id, UpdateEntity(req), fault);
  }

  /** Every task search that passes the guard still fails: the repository reads the users table. */
  lemma SearchTasksNeverSucceeds(db: Database, filter: string, value: string, order: seq<string>, fault: Option<DbError>)
    ensures SearchTasks(db, filter, value, order, fault).Err?
    ensures !SearchRejected(filter, value) ==>
      SearchTasks(db, filter, value, order, fault).error.Driver?
  {
    TaskRepository.SearchNeverSucceeds(db, filter, value, order, fault);
  }

  /** A create request that passed validation only carries dates that parse with the date layout. */
  lemma ValidatedCreateDatesParse(req: Task.Request, p: Parsers, random: seq<byte>)
    requires |random| == IdBytes
    requires Task.ValidateRequest(req, p) == []
    ensures NewEntity(req, random).createdAt.InLayout(p) && NewEntity(req, random).doneAt.InLayout(p)
  {
    Task.ValidateRequestEmptyIff(req, p);
  }

  /** An update request that passed validation only binds dates that parse with the date layout. */
  lemma ValidatedUpdateDatesParse(req: Task.UpdateRequest, p: Parsers)
    requires Task.ValidateUpdate(req, p) == []
    ensures forall i :: 0 <= i < |TaskRepository.PrepareArgs(UpdateEntity(req)).args| ==>
      var a := TaskRepository.PrepareArgs(UpdateEntity(req)).args[i];
      a.Date? ==> a.date.InLayout(p)
  {
    TaskRepository.BoundDates(UpdateEntity(req));
    assert !Task.UpdateFieldInvalid(req, p, "done_at") by {
      assert !Validation.HasError(Task.ValidateUpdate(req, p), "done_at");
    }
  }

  /** Creating a task keeps every row stored under its own id. */
  lemma CreateKeepsKeys(db: Database, req: Task.Request, random: seq<byte>, fault: Option<DbError>)
    requires |random| == IdBytes
    requires KeysMatch(db)
    ensures KeysMatch(CreateTask(db, req, random, fault).db)
  {
  }

  /** Updating a task keeps every row stored under its own id. */
  lemma UpdateKeepsKeys(db: Database, id: string, req: Task.UpdateRequest, fault: Option<DbError>)
    requires KeysMatch(db)
    ensures KeysMatch(UpdateTask(db, id, req, fault).db)
  {
    UpdateKeepsIdentity(db, id, req, fault);
  }

  /** Deleting a task keeps every remaining row stored under its own id. */
  lemma DeleteKeepsKeys(db: Database, id: string, fault: Option<DbError>)
    requires KeysMatch(db)
    ensures KeysMatch(DeleteTask(db, id, fault).db)
  {
  }
}
