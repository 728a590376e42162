/**
  `TaskRepository` (internal/repository/postgres/task.go) over the `tasks`
  table of the abstract store.
 */
module TaskRepository {
  import opened Wrappers
  import opened Domain
  import opened Sql
  import opened Store
  import Task
  import User
  import UserRepository

  /** The columns of `tasks`, in the order the INSERT names them. */
  const Columns: seq<string> :=
    ["id", "title", "description", "priority", "status", "author_id", "project_id", "created_at", "done_at"]

  /** The column names `Task.Entity` has fields for. */
  const Destination: set<string> :=
    {"id", "title", "description", "priority", "status", "author_id", "project_id", "created_at", "done_at"}

  /** A column of a stored task as text. */
  function Value(t: Task.Entity, column: string): string {
    match column
    case "id" => t.id
    case "title" => t.title
    case "description" => t.description
    case "priority" => t.priority
    case "status" => t.status
    case "author_id" => t.authorId
    case "project_id" => t.projectId
    case "created_at" => t.createdAt.raw
    case "done_at" => t.doneAt.raw
    case _ => ""
  }

  /** What one `column=$n` clause does to a task row; the server folds the column name to lower case first. */
  function Assign(t: Task.Entity, column: string, v: Arg): Task.Entity {
    match FoldIdentifier(column)
    case "title" => t.(title := v.Raw())
    case "description" => t.(description := v.Raw())
    case "priority" => t.(priority := v.Raw())
    case "status" => t.(status := v.Raw())
    case "author_id" => t.(authorId := v.Raw())
    case "project_id" => t.(projectId := v.Raw())
    case "created_at" => t.(createdAt := OnlyDate(v.Raw()))
    case "done_at" => t.(doneAt := OnlyDate(v.Raw()))
    case _ => t
  }

  /** The clause `prepareArgs` writes as `Title=$n` sets the title column. */
  lemma TitleFolds(t: Task.Entity, v: Arg)
    ensures FoldIdentifier("Title") == "title"
    ensures Assign(t, "Title", v) == t.(title := v.Raw())
  {
    var f := FoldIdentifier("Title");
    assert f[0] == 't' && f[1] == 'i' && f[2] == 't' && f[3] == 'l' && f[4] == 'e';
    assert f == "title";
  }

  /** What the four text clauses after the title do to a row. */
  lemma AssignTextColumns(t: Task.Entity, v: Arg)
    ensures Assign(t, "description", v) == t.(description := v.Raw())
    ensures Assign(t, "priority", v) == t.(priority := v.Raw())
    ensures Assign(t, "status", v) == t.(status := v.Raw())
    ensures Assign(t, "author_id", v) == t.(authorId := v.Raw())
  {
    FoldLowerCase("description");
    assert Assign(t, "description", v) == t.(description := v.Raw());
    FoldLowerCase("priority");
    assert Assign(t, "priority", v) == t.(priority := v.Raw());
    FoldLowerCase("status");
    assert Assign(t, "status", v) == t.(status := v.Raw());
    FoldLowerCase("author_id");
  }

  /** What the last two clauses an update can carry do to a row. */
  lemma AssignLastColumns(t: Task.Entity, v: Arg)
    ensures Assign(t, "project_id", v) == t.(projectId := v.Raw())
    ensures Assign(t, "done_at", v) == t.(doneAt := OnlyDate(v.Raw()))
  {
    FoldLowerCase("project_id");
    assert Assign(t, "project_id", v) == t.(projectId := v.Raw());
    FoldLowerCase("done_at");
  }

  // ---------------------------------------------------------------------------
  // prepareArgs
  // ---------------------------------------------------------------------------

  /** The first four clauses an update can carry: title (spelled `Title`), description, priority, status. */
  function HeadFields(data: Task.Entity): (fields: seq<(string, Arg)>)
    ensures |fields| <= 4
    ensures forall f :: f in fields ==> f.1.Text?
  {
    Optional(data.title != "", "Title", Text(data.title))
    + Optional(data.description != "", "description", Text(data.description))
    + Optional(data.priority != "", "priority", Text(data.priority))
    + Optional(data.status != "", "status", Text(data.status))
  }

  /** The last three clauses an update can carry: author_id, project_id, done_at. */
  function TailFields(data: Task.Entity): (fields: seq<(string, Arg)>)
    ensures |fields| <= 3
    ensures forall f :: f in fields && f.1.Date? ==> f.1 == Date(data.doneAt) && data.doneAt.raw != ""
  {
    Optional(data.authorId != "", "author_id", Text(data.authorId))
    + Optional(data.projectId != "", "project_id", Text(data.projectId))
    + Optional(data.doneAt.raw != "", "done_at", Date(data.doneAt))
  }

  /** Nothing to set: every field an update can carry is empty. */
  predicate NothingToSet(data: Task.Entity) {
    && data.title == "" && data.description == "" && data.priority == "" && data.status == ""
    && data.authorId == "" && data.projectId == "" && data.doneAt.raw == ""
  }

  /** The clauses an update should carry, each only when non-empty, in the order `prepareArgs` tests them. */
  function Supplied(data: Task.Entity): (fields: seq<(string, Arg)>)
    ensures |fields| <= 7
    ensures fields == [] <==> NothingToSet(data)
    ensures forall f :: f in fields && f.1.Date? ==> f.1 == Date(data.doneAt) && data.doneAt.raw != ""
  {
    HeadFields(data) + TailFields(data)
  }

  /** The supplied fields, regrouped as the head followed by the tail's steps one at a time. */
  lemma SuppliedSteps(data: Task.Entity)
    ensures Supplied(data) ==
      HeadFields(data)
      + Optional(data.authorId != "", "author_id", Text(data.authorId))
      + Optional(data.projectId != "", "project_id", Text(data.projectId))
      + Optional(data.doneAt.raw != "", "done_at", Date(data.doneAt))
  {
    var f5 := Optional(data.authorId != "", "author_id", Text(data.authorId));
    var f6 := Optional(data.projectId != "", "project_id", Text(data.projectId));
    var f7 := Optional(data.doneAt.raw != "", "done_at", Date(data.doneAt));
    assert HeadFields(data) + (f5 + f6 + f7) == HeadFields(data) + f5 + f6 + f7;
  }

  /** The first four steps of `prepareArgs`. */
  function PrepareHead(data: Task.Entity): (l: SetList)
    ensures Numbered(l)
    ensures Describes(l, HeadFields(data))
  {
    StartFourDescribes(data.title != "", "Title", Text(data.title),
                       data.description != "", "description", Text(data.description),
                       data.priority != "", "priority", Text(data.priority),
                       data.status != "", "status", Text(data.status));
    var l1 := Append(NoSets(), data.title != "", "Title", Text(data.title));
    var l2 := Append(l1, data.description != "", "description", Text(data.description));
    var l3 := Append(l2, data.priority != "", "priority", Text(data.priority));
    Append(l3, data.status != "", "status", Text(data.status))
  }

  /**
    `prepareArgs`: parallel `sets` and `args` holding exactly the supplied
    fields in order, numbered `$1..$n`; the id and the creation date never
    appear.
   */
  function PrepareArgs(data: Task.Entity): (l: SetList)
    ensures Numbered(l)
    ensures Describes(l, Supplied(data))
    ensures l.sets == [] <==> NothingToSet(data)
  {
    var l4 := PrepareHead(data);
    AppendThreeDescribes(l4, HeadFields(data),
                         data.authorId != "", "author_id", Text(data.authorId),
                         data.projectId != "", "project_id", Text(data.projectId),
                         data.doneAt.raw != "", "done_at", Date(data.doneAt));
    SuppliedSteps(data);
    var l5 := Append(l4, data.authorId != "", "author_id", Text(data.authorId));
    var l6 := Append(l5, data.projectId != "", "project_id", Text(data.projectId));
    Append(l6, data.doneAt.raw != "", "done_at", Date(data.doneAt))
  }

  /** The only date an update binds is a supplied completion date. */
  lemma BoundDates(data: Task.Entity)
    ensures forall i :: 0 <= i < |PrepareArgs(data).args| && PrepareArgs(data).args[i].Date? ==>
      PrepareArgs(data).args[i] == Date(data.doneAt) && data.doneAt.raw != ""
  {
    var l := PrepareArgs(data);
    forall i | 0 <= i < |l.args| && l.args[i].Date?
      ensures l.args[i] == Date(data.doneAt) && data.doneAt.raw != ""
    {
      assert Supplied(data)[i] in Supplied(data);
    }
  }

  /** The row an update should leave: each supplied field replaced, the id and the creation date kept. */
  function Merge(prev: Task.Entity, data: Task.Entity): (r: Task.Entity)
    ensures r.id == prev.id && r.createdAt == prev.createdAt
  {
    prev.(title := if data.title != "" then data.title else prev.title,
          description := if data.description != "" then data.description else prev.description,
          priority := if data.priority != "" then data.priority else prev.priority,
          status := if data.status != "" then data.status else prev.status,
          authorId := if data.authorId != "" then data.authorId else prev.authorId,
          projectId := if data.projectId != "" then data.projectId else prev.projectId,
          doneAt := if data.doneAt.raw != "" then data.doneAt else prev.doneAt)
  }

  /** The first four clauses replace the supplied title, description, priority and status. */
  lemma HeadMerge(prev: Task.Entity, data: Task.Entity)
    ensures ApplyFields(prev, Assign, HeadFields(data)) ==
      prev.(title := if data.title != "" then data.title else prev.title,
            description := if data.description != "" then data.description else prev.description,
            priority := if data.priority != "" then data.priority else prev.priority,
            status := if data.status != "" then data.status else prev.status)
  {
    var f1 := Optional(data.title != "", "Title", Text(data.title));
    var f2 := Optional(data.description != "", "description", Text(data.description));
    var f3 := Optional(data.priority != "", "priority", Text(data.priority));
    var f4 := Optional(data.status != "", "status", Text(data.status));
    var m1 := ApplyFields(prev, Assign, f1);
    var m2 := ApplyFields(m1, Assign, f2);
    var m3 := ApplyFields(m2, Assign, f3);
    var m4 := ApplyFields(m3, Assign, f4);
    assert ApplyFields(prev, Assign, HeadFields(data)) == m4 by {
      ApplyFieldsConcat(prev, Assign, f1 + f2 + f3, f4);
      ApplyFieldsConcat(prev, Assign, f1 + f2, f3);
      ApplyFieldsConcat(prev, Assign, f1, f2);
    }
    assert m1 == prev.(title := if data.title != "" then data.title else prev.title) by {
      ApplyOptional(prev, Assign, data.title != "", "Title", Text(data.title));
      TitleFolds(prev, Text(data.title));
    }
    assert m2 == m1.(description := if data.description != "" then data.description else prev.description) by {
      ApplyOptional(m1, Assign, data.description != "", "description", Text(data.description));
      AssignTextColumns(m1, Text(data.description));
    }
    assert m3 == m2.(priority := if data.priority != "" then data.priority else prev.priority) by {
      ApplyOptional(m2, Assign, data.priority != "", "priority", Text(data.priority));
      AssignTextColumns(m2, Text(data.priority));
    }
    assert m4 == m3.(status := if data.status != "" then data.status else prev.status) by {
      ApplyOptional(m3, Assign, data.status != "", "status", Text(data.status));
      AssignTextColumns(m3, Text(data.status));
    }
  }

  /** The last three clauses replace the supplied author, project and completion date. */
  lemma TailMerge(prev: Task.Entity, data: Task.Entity)
    ensures ApplyFields(prev, Assign, TailFields(data)) ==
      prev.(authorId := if data.authorId != "" then data.authorId else prev.authorId,
            projectId := if data.projectId != "" then data.projectId else prev.projectId,
            doneAt := if data.doneAt.raw != "" then data.doneAt else prev.doneAt)
  {
    var f5 := Optional(data.authorId != "", "author_id", Text(data.authorId));
    var f6 := Optional(data.projectId != "", "project_id", Text(data.projectId));
    var f7 := Optional(data.doneAt.raw != "", "done_at", Date(data.doneAt));
    var m5 := ApplyFields(prev, Assign, f5);
    var m6 := ApplyFields(m5, Assign, f6);
    var m7 := ApplyFields(m6, Assign, f7);
    assert ApplyFields(prev, Assign, TailFields(data)) == m7 by {
      ApplyFieldsConcat(prev, Assign, f5 + f6, f7);
      ApplyFieldsConcat(prev, Assign, f5, f6);
    }
    assert m5 == prev.(authorId := if data.authorId != "" then data.authorId else prev.authorId) by {
      ApplyOptional(prev, Assign, data.authorId != "", "author_id", Text(data.authorId));
      AssignTextColumns(prev, Text(data.authorId));
    }
    assert m6 == m5.(projectId := if data.projectId != "" then data.projectId else prev.projectId) by {
      ApplyOptional(m5, Assign, data.projectId != "", "project_id", Text(data.projectId));
      AssignLastColumns(m5, Text(data.projectId));
    }
    assert m7 == m6.(doneAt := if data.doneAt.raw != "" then data.doneAt else prev.doneAt) by {
      ApplyOptional(m6, Assign, data.doneAt.raw != "", "done_at", Date(data.doneAt));
      AssignLastColumns(m6, Date(data.doneAt));
    }
  }

  /** Applying the supplied fields in order merges them into the row. */
  lemma SuppliedMerge(prev: Task.Entity, data: Task.Entity)
    ensures ApplyFields(prev, Assign, Supplied(data)) == Merge(prev, data)
  {
    ApplyFieldsConcat(prev, Assign, HeadFields(data), TailFields(data));
    HeadMerge(prev, data);
    TailMerge(ApplyFields(prev, Assign, HeadFields(data)), data);
  }

  /** Applying the SET list `prepareArgs` builds, with any WHERE argument after it, merges the supplied fields. */
  lemma PrepareArgsMerge(prev: Task.Entity, data: Task.Entity, more: seq<Arg>)
    ensures Bound(PrepareArgs(data).sets, PrepareArgs(data).args + more)
    ensures ApplySets(prev, Assign, PrepareArgs(data).sets, PrepareArgs(data).args + more) == Merge(prev, data)
  {
    ApplyDescribed(prev, Assign, PrepareArgs(data), Supplied(data), more);
    SuppliedMerge(prev, data);
  }

  // ---------------------------------------------------------------------------
  // Operations
  // ---------------------------------------------------------------------------

  /** `Create`: insert the task; a duplicate key or a missing returned row is ErrExists. */
  function Create(db: Database, t: Task.Entity, fault: Option<DbError>): (o: Outcome<string>)
    ensures o.result.Ok? <==> fault.None? && t.id !in db.tasks
    ensures o.result.Ok? ==> o.result.value == t.id && o.db == db.(tasks := db.tasks[t.id := t])
    ensures o.result.Err? ==> o.db == db
    ensures fault.None? && t.id in db.tasks ==> o.result == Err(Task.ErrExists)
    ensures fault.Some? ==> o.result == Err(CreateError(Tasks, fault.value))
  {
    match ExecInsert(db.tasks, t.id, t, fault)
    case Ok((id, m)) => Outcome(Ok(id), db.(tasks := m))
    case Err(e) => Outcome(Err(CreateError(Tasks, e)), db)
  }

  /**
    `Update`: with nothing to set no statement runs and the result is
    success even for an unknown id; otherwise the row takes the supplied
    fields, and a missing row is ErrNotFound.
   */
  function Update(db: Database, id: string, data: Task.Entity, fault: Option<DbError>): (o: Outcome<()>)
    ensures NothingToSet(data) ==> o == Outcome(Ok(()), db)
    ensures !NothingToSet(data) ==> (o.result.Ok? <==> fault.None? && id in db.tasks)
    ensures !NothingToSet(data) && o.result.Ok? ==>
      o.db == db.(tasks := db.tasks[id := Merge(db.tasks[id], data)])
    ensures o.result.Err? ==> o.db == db
    ensures !NothingToSet(data) && fault.None? && id !in db.tasks ==> o.result == Err(Task.ErrNotFound)
    ensures !NothingToSet(data) && fault.Some? ==> o.result == Err(NotFoundError(Tasks, fault.value))
  {
    var l := PrepareArgs(data);
    match AssembleUpdate("tasks", l, id)
    case None => Outcome(Ok(()), db)
    case Some(st) =>
      PrepareArgsMerge(if id in db.tasks then db.tasks[id] else data, data, [Text(id)]);
      match ExecUpdate(db.tasks, st, Assign, fault)
      case Ok(m) => Outcome(Ok(()), db.(tasks := m))
      case Err(e) => Outcome(Err(NotFoundError(Tasks, e)), db)
  }

  /** An update never changes which tasks exist, nor any task's id, nor another table. */
  lemma UpdateKeepsIdentity(db: Database, id: string, data: Task.Entity, fault: Option<DbError>)
    ensures Update(db, id, data, fault).db.tasks.Keys == db.tasks.Keys
    ensures forall k :: k in db.tasks ==> Update(db, id, data, fault).db.tasks[k].id == db.tasks[k].id
    ensures Update(db, id, data, fault).db.users == db.users
    ensures Update(db, id, data, fault).db.projects == db.projects
  {
    var o := Update(db, id, data, fault);
    if o.db != db {
      assert o.db == db.(tasks := db.tasks[id := Merge(db.tasks[id], data)]);
    }
  }

  /** An update never changes any task's creation date. */
  lemma UpdateKeepsCreated(db: Database, id: string, data: Task.Entity, fault: Option<DbError>)
    ensures forall k :: k in db.tasks ==> Update(db, id, data, fault).db.tasks[k].createdAt == db.tasks[k].createdAt
  {
    var o := Update(db, id, data, fault);
    if o.db != db {
      assert o.db.tasks == db.tasks[id := Merge(db.tasks[id], data)];
    }
  }

  /** `Get`: the stored task, ErrNotFound for an unknown id, any other failure passed through. */
  function Get(db: Database, id: string, fault: Option<DbError>): (r: Result<Task.Entity, Error>)
    ensures r.Ok? <==> fault.None? && id in db.tasks
    ensures r.Ok? ==> r.value == db.tasks[id]
    ensures fault.None? && id !in db.tasks ==> r == Err(Task.ErrNotFound)
    ensures fault.Some? ==> r == Err(NotFoundError(Tasks, fault.value))
  {
    match ExecGet(db.tasks, id, fault)
    case Ok(t) => Ok(t)
    case Err(e) => Err(NotFoundError(Tasks, e))
  }

  /** `Delete`: the row goes; ErrNotFound for an unknown id. */
  function Delete(db: Database, id: string, fault: Option<DbError>): (o: Outcome<()>)
    ensures o.result.Ok? <==> fault.None? && id in db.tasks
    ensures o.result.Ok? ==> o.db == db.(tasks := db.tasks - {id})
    ensures o.result.Err? ==> o.db == db
    ensures fault.None? && id !in db.tasks ==> o.result == Err(Task.ErrNotFound)
    ensures fault.Some? ==> o.result == Err(NotFoundError(Tasks, fault.value))
  {
    match ExecDelete(db.tasks, id, fault)
    case Ok(m) => Outcome(Ok(()), db.(tasks := db.tasks - {id}))
    case Err(e) => Outcome(Err(NotFoundError(Tasks, e)), db)
  }

  /** `List`: every task in scan order; a failure is passed through. */
  function List(db: Database, order: seq<string>, fault: Option<DbError>): (r: Result<seq<Task.Entity>, Error>)
    ensures r.Ok? <==> fault.None?
    ensures fault.Some? ==> r == Err(Driver(fault.value))
    ensures r.Ok? && Lists(order, db.tasks) ==> |r.value| == |order| == |db.tasks|
    ensures r.Ok? && Lists(order, db.tasks) ==> forall i :: 0 <= i < |order| ==> r.value[i] == db.tasks[order[i]]
  {
    match ExecSelectAll(db.tasks, order, fault)
    case Ok(rows) => Ok(rows)
    case Err(e) => Err(Driver(e))
  }

  /** The keys `prepareFilterArg` knows. */
  const FilterKeys: set<string> :=
    {"title", "description", "priority", "status", "assignee", "project_id", "created_at", "done_at"}

  /**
    `prepareFilterArg`: "assignee" names author_id, seven other keys name
    their own column, any other key becomes "".
   */
  function PrepareFilterArg(arg: string): (column: string)
    ensures column != "" <==> arg in FilterKeys
    ensures arg == "assignee" ==> column == "author_id"
    ensures arg in FilterKeys && arg != "assignee" ==> column == arg
    ensures column != "" ==> column in Columns
  {
    match arg
    case "title" => "title"
    case "description" => "description"
    case "priority" => "priority"
    case "status" => "status"
    case "assignee" => "author_id"
    case "project_id" => "project_id"
    case "created_at" => "created_at"
    case "done_at" => "done_at"
    case _ => ""
  }

  /** Every key the repository knows also passes the domain's filter check. */
  lemma KnownKeysPassFilter(arg: string)
    requires arg in FilterKeys
    ensures Task.IsValidFilter(arg)
  {
  }

  /** None of the columns a task filter can name is a column of `users`. */
  lemma FilterColumnsNotInUsers(arg: string)
    ensures PrepareFilterArg(arg) !in UserRepository.Columns
  {
  }

  /** The empty struct a `users` row would be scanned into: only the shared `id` column has a field. */
  function ScanUser(u: User.Entity): (t: Task.Entity)
    ensures t.id == u.id
  {
    Task.Entity(u.id, "", "", "", "", "", "", OnlyDate(""), OnlyDate(""))
  }

  /**
    `Search` as written: the query reads the `users` table into task structs,
    filtering on the column `prepareFilterArg` chose; an empty result would
    be ErrNotFound, and a driver failure is passed through.
   */
  function Search(db: Database, filter: string, value: string, order: seq<string>, fault: Option<DbError>)
    : (r: Result<seq<Task.Entity>, Error>)
    ensures PrepareFilterArg(filter) == "" ==> r == Err(Driver(SyntaxError))
    ensures PrepareFilterArg(filter) != "" ==> r == Err(Driver(UndefinedColumn(PrepareFilterArg(filter))))
  {
    var column := PrepareFilterArg(filter);
    FilterColumnsNotInUsers(filter);
    match ExecSelectWhere(db.users, UserRepository.Columns, Destination, ScanUser, UserRepository.Value,
                          column, value, order, fault)
    case Err(e) => Err(Driver(e))
    case Ok(rows) =>
      if |rows| == 0 then Err(Task.ErrNotFound) else Ok(rows)
  }

  /** Search never succeeds and never reports ErrNotFound, whatever the tables hold. */
  lemma SearchNeverSucceeds(db: Database, filter: string, value: string, order: seq<string>, fault: Option<DbError>)
    ensures Search(db, filter, value, order, fault).Err?
    ensures Search(db, filter, value, order, fault) != Err(Task.ErrNotFound)
    ensures Search(db, filter, value, order, fault).error.Driver?
  {
  }
}
