/**
  `ProjectRepository` (internal/repository/postgres/project.go) over the
  `projects` table of the abstract store.
 */
module ProjectRepository {
  import opened Wrappers
  import opened Domain
  import opened Sql
  import opened Store
  import Project

  /** The columns of `projects`, in the order the INSERT names them. */
  const Columns: seq<string> := ["id", "title", "description", "manager_id", "started_at", "finished_at"]

  /** The column names `Project.Entity` has fields for. */
  const Destination: set<string> := {"id", "title", "description", "started_at", "finished_at", "manager_id"}

  /** A column of a stored project as text. */
  function Value(p: Project.Entity, column: string): string {
    match column
    case "id" => p.id
    case "title" => p.title
    case "description" => p.description
    case "manager_id" => p.managerId
    case "started_at" => p.startedAt.raw
    case "finished_at" => p.finishedAt.raw
    case _ => ""
  }

  /** What one `column = $n` clause does to a project row. */
  function Assign(p: Project.Entity, column: string, v: Arg): Project.Entity {
    match FoldIdentifier(column)
    case "title" => p.(title := v.Raw())
    case "description" => p.(description := v.Raw())
    case "manager_id" => p.(managerId := v.Raw())
    case "started_at" => p.(startedAt := OnlyDate(v.Raw()))
    case "finished_at" => p.(finishedAt := OnlyDate(v.Raw()))
    case _ => p
  }

  /** What the five clauses an update can carry do to a row. */
  lemma AssignColumns(p: Project.Entity, v: Arg)
    ensures Assign(p, "title", v) == p.(title := v.Raw())
    ensures Assign(p, "description", v) == p.(description := v.Raw())
    ensures Assign(p, "manager_id", v) == p.(managerId := v.Raw())
    ensures Assign(p, "started_at", v) == p.(startedAt := OnlyDate(v.Raw()))
    ensures Assign(p, "finished_at", v) == p.(finishedAt := OnlyDate(v.Raw()))
  {
    FoldLowerCase("title");
    assert Assign(p, "title", v) == p.(title := v.Raw());
    FoldLowerCase("description");
    assert Assign(p, "description", v) == p.(description := v.Raw());
    FoldLowerCase("manager_id");
    assert Assign(p, "manager_id", v) == p.(managerId := v.Raw());
    FoldLowerCase("started_at");
    assert Assign(p, "started_at", v) == p.(startedAt := OnlyDate(v.Raw()));
    FoldLowerCase("finished_at");
  }

  // ---------------------------------------------------------------------------
  // prepareArgs
  // ---------------------------------------------------------------------------

  /** Nothing to set: every field an update can carry is empty. */
  predicate NothingToSet(data: Project.Entity) {
    && data.title == "" && data.description == "" && data.managerId == ""
    && data.startedAt.raw == "" && data.finishedAt.raw == ""
  }

  /** The first three clauses an update can carry, all text: title, description, manager_id. */
  function HeadFields(data: Project.Entity): (fields: seq<(string, Arg)>)
    ensures |fields| <= 3
    ensures forall f :: f in fields ==> f.1.Text?
  {
    Optional(data.title != "", "title", Text(data.title))
    + Optional(data.description != "", "description", Text(data.description))
    + Optional(data.managerId != "", "manager_id", Text(data.managerId))
  }

  /** The last two clauses an update can carry, both dates: started_at, finished_at. */
  function TailFields(data: Project.Entity): (fields: seq<(string, Arg)>)
    ensures |fields| <= 2
    ensures forall f :: f in fields ==>
      || (f.1 == Date(data.startedAt) && data.startedAt.raw != "")
      || (f.1 == Date(data.finishedAt) && data.finishedAt.raw != "")
  {
    Optional(data.startedAt.raw != "", "started_at", Date(data.startedAt))
    + Optional(data.finishedAt.raw != "", "finished_at", Date(data.finishedAt))
  }

  /**
    The clauses an update should carry: title, description, manager_id,
    started_at and finished_at, each only when non-empty, in that order.
   */
  function Supplied(data: Project.Entity): (fields: seq<(string, Arg)>)
    ensures |fields| <= 5
    ensures fields == [] <==> NothingToSet(data)
    ensures forall f :: f in fields && f.1.Date? ==>
      || (f.1 == Date(data.startedAt) && data.startedAt.raw != "")
      || (f.1 == Date(data.finishedAt) && data.finishedAt.raw != "")
  {
    HeadFields(data) + TailFields(data)
  }

  /** The supplied fields, regrouped as the head followed by the tail's steps one at a time. */
  lemma SuppliedSteps(data: Project.Entity)
    ensures Supplied(data) ==
      HeadFields(data)
      + Optional(data.startedAt.raw != "", "started_at", Date(data.startedAt))
      + Optional(data.finishedAt.raw != "", "finished_at", Date(data.finishedAt))
  {
    var f4 := Optional(data.startedAt.raw != "", "started_at", Date(data.startedAt));
    var f5 := Optional(data.finishedAt.raw != "", "finished_at", Date(data.finishedAt));
    assert HeadFields(data) + (f4 + f5) == HeadFields(data) + f4 + f5;
  }

  /** The first three steps of `prepareArgs`. */
  function PrepareHead(data: Project.Entity): (l: SetList)
    ensures Numbered(l)
    ensures Describes(l, HeadFields(data))
  {
    StartThreeDescribes(data.title != "", "title", Text(data.title),
                        data.description != "", "description", Text(data.description),
                        data.managerId != "", "manager_id", Text(data.managerId));
    var l1 := Append(NoSets(), data.title != "", "title", Text(data.title));
    var l2 := Append(l1, data.description != "", "description", Text(data.description));
    Append(l2, data.managerId != "", "manager_id", Text(data.managerId))
  }

  /**
    `prepareArgs`: parallel `sets` and `args` holding exactly the supplied
    fields in order, numbered `$1..$n`; the id never appears.
   */
  function PrepareArgs(data: Project.Entity): (l: SetList)
    ensures Numbered(l)
    ensures Describes(l, Supplied(data))
    ensures l.sets == [] <==> NothingToSet(data)
  {
    var l3 := PrepareHead(data);
    AppendTwoDescribes(l3, HeadFields(data),
                       data.startedAt.raw != "", "started_at", Date(data.startedAt),
                       data.finishedAt.raw != "", "finished_at", Date(data.finishedAt));
    SuppliedSteps(data);
    var l4 := Append(l3, data.startedAt.raw != "", "started_at", Date(data.startedAt));
    Append(l4, data.finishedAt.raw != "", "finished_at", Date(data.finishedAt))
  }

  /** The only dates an update binds are a supplied start or finish date. */
  lemma BoundDates(data: Project.Entity)
    ensures forall i :: 0 <= i < |PrepareArgs(data).args| && PrepareArgs(data).args[i].Date? ==>
      || (PrepareArgs(data).args[i] == Date(data.startedAt) && data.startedAt.raw != "")
      || (PrepareArgs(data).args[i] == Date(data.finishedAt) && data.finishedAt.raw != "")
  {
    var l := PrepareArgs(data);
    forall i | 0 <= i < |l.args| && l.args[i].Date?
      ensures || (l.args[i] == Date(data.startedAt) && data.startedAt.raw != "")
              || (l.args[i] == Date(data.finishedAt) && data.finishedAt.raw != "")
    {
      assert Supplied(data)[i] in Supplied(data);
    }
  }

  /** The row an update should leave: each supplied field replaced, the id kept. */
  function Merge(prev: Project.Entity, data: Project.Entity): (r: Project.Entity)
    ensures r.id == prev.id
  {
    prev.(title := if data.title != "" then data.title else prev.title,
          description := if data.description != "" then data.description else prev.description,
          managerId := if data.managerId != "" then data.managerId else prev.managerId,
          startedAt := if data.startedAt.raw != "" then data.startedAt else prev.startedAt,
          finishedAt := if data.finishedAt.raw != "" then data.finishedAt else prev.finishedAt)
  }

  /** The first three clauses replace the supplied title, description and manager. */
  lemma HeadMerge(prev: Project.Entity, data: Project.Entity)
    ensures ApplyFields(prev, Assign, HeadFields(data)) ==
      prev.(title := if data.title != "" then data.title else prev.title,
            description := if data.description != "" then data.description else prev.description,
            managerId := if data.managerId != "" then data.managerId else prev.managerId)
  {
    var f1 := Optional(data.title != "", "title", Text(data.title));
    var f2 := Optional(data.description != "", "description", Text(data.description));
    var f3 := Optional(data.managerId != "", "manager_id", Text(data.managerId));
    var m1 := ApplyFields(prev, Assign, f1);
    var m2 := ApplyFields(m1, Assign, f2);
    var m3 := ApplyFields(m2, Assign, f3);
    assert ApplyFields(prev, Assign, HeadFields(data)) == m3 by {
      ApplyFieldsConcat(prev, Assign, f1 + f2, f3);
      ApplyFieldsConcat(prev, Assign, f1, f2);
    }
    assert m1 == prev.(title := if data.title != "" then data.title else prev.title) by {
      ApplyOptional(prev, Assign, data.title != "", "title", Text(data.title));
      AssignColumns(prev, Text(data.title));
    }
    assert m2 == m1.(description := if data.description != "" then data.description else prev.description) by {
      ApplyOptional(m1, Assign, data.description != "", "description", Text(data.description));
      AssignColumns(m1, Text(data.description));
    }
    assert m3 == m2.(managerId := if data.managerId != "" then data.managerId else prev.managerId) by {
      ApplyOptional(m2, Assign, data.managerId != "", "manager_id", Text(data.managerId));
      AssignColumns(m2, Text(data.managerId));
    }
  }

  /** The last two clauses replace the supplied start and finish dates. */
  lemma TailMerge(prev: Project.Entity, data: Project.Entity)
    ensures ApplyFields(prev, Assign, TailFields(data)) ==
      prev.(startedAt := if data.startedAt.raw != "" then data.startedAt else prev.startedAt,
            finishedAt := if data.finishedAt.raw != "" then data.finishedAt else prev.finishedAt)
  {
    var f4 := Optional(data.startedAt.raw != "", "started_at", Date(data.startedAt));
    var f5 := Optional(data.finishedAt.raw != "", "finished_at", Date(data.finishedAt));
    var m4 := ApplyFields(prev, Assign, f4);
    var m5 := ApplyFields(m4, Assign, f5);
    assert ApplyFields(prev, Assign, TailFields(data)) == m5 by {
      ApplyFieldsConcat(prev, Assign, f4, f5);
    }
    assert m4 == prev.(startedAt := if data.startedAt.raw != "" then data.startedAt else prev.startedAt) by {
      ApplyOptional(prev, Assign, data.startedAt.raw != "", "started_at", Date(data.startedAt));
      AssignColumns(prev, Date(data.startedAt));
    }
    assert m5 == m4.(finishedAt := if data.finishedAt.raw != "" then data.finishedAt else prev.finishedAt) by {
      ApplyOptional(m4, Assign, data.finishedAt.raw != "", "finished_at", Date(data.finishedAt));
      AssignColumns(m4, Date(data.finishedAt));
    }
  }

  /** Applying the supplied fields in order merges them into the row. */
  lemma SuppliedMerge(prev: Project.Entity, data: Project.Entity)
    ensures ApplyFields(prev, Assign, Supplied(data)) == Merge(prev, data)
  {
    ApplyFieldsConcat(prev, Assign, HeadFields(data), TailFields(data));
    HeadMerge(prev, data);
    TailMerge(ApplyFields(prev, Assign, HeadFields(data)), data);
  }

  /** Applying the SET list `prepareArgs` builds, with any WHERE argument after it, merges the supplied fields. */
  lemma PrepareArgsMerge(prev: Project.Entity, data: Project.Entity, more: seq<Arg>)
    ensures Bound(PrepareArgs(data).sets, PrepareArgs(data).args + more)
    ensures ApplySets(prev, Assign, PrepareArgs(data).sets, PrepareArgs(data).args + more) == Merge(prev, data)
  {
    ApplyDescribed(prev, Assign, PrepareArgs(data), Supplied(data), more);
    SuppliedMerge(prev, data);
  }

  // ---------------------------------------------------------------------------
  // Operations
  // ---------------------------------------------------------------------------

  /** `Create`: insert the project; a duplicate key or a missing returned row is ErrExists. */
  function Create(db: Database, p: Project.Entity, fault: Option<DbError>): (o: Outcome<string>)
    ensures o.result.Ok? <==> fault.None? && p.id !in db.projects
    ensures o.result.Ok? ==> o.result.value == p.id && o.db == db.(projects := db.projects[p.id := p])
    ensures o.result.Err? ==> o.db == db
    ensures fault.None? && p.id in db.projects ==> o.result == Err(Project.ErrExists)
    ensures fault.Some? ==> o.result == Err(CreateError(Projects, fault.value))
  {
    match ExecInsert(db.projects, p.id, p, fault)
    case Ok((id, t)) => Outcome(Ok(id), db.(projects := t))
    case Err(e) => Outcome(Err(CreateError(Projects, e)), db)
  }

  /**
    `Update`: with nothing to set no statement runs and the result is
    success even for an unknown id; otherwise the row takes the supplied
    fields, and a missing row is ErrNotFound.
   */
  function Update(db: Database, id: string, data: Project.Entity, fault: Option<DbError>): (o: Outcome<()>)
    ensures NothingToSet(data) ==> o == Outcome(Ok(()), db)
    ensures !NothingToSet(data) ==> (o.result.Ok? <==> fault.None? && id in db.projects)
    ensures !NothingToSet(data) && o.result.Ok? ==>
      o.db == db.(projects := db.projects[id := Merge(db.projects[id], data)])
    ensures o.result.Err? ==> o.db == db
    ensures !NothingToSet(data) && fault.None? && id !in db.projects ==> o.result == Err(Project.ErrNotFound)
    ensures !NothingToSet(data) && fault.Some? ==> o.result == Err(NotFoundError(Projects, fault.value))
  {
    var l := PrepareArgs(data);
    match AssembleUpdate("projects", l, id)
    case None => Outcome(Ok(()), db)
    case Some(st) =>
      PrepareArgsMerge(if id in db.projects then db.projects[id] else data, data, [Text(id)]);
      match ExecUpdate(db.projects, st, Assign, fault)
      case Ok(t) => Outcome(Ok(()), db.(projects := t))
      case Err(e) => Outcome(Err(NotFoundError(Projects, e)), db)
  }

  /** An update never changes which projects exist, nor any project's id, nor another table. */
  lemma UpdateKeepsIdentity(db: Database, id: string, data: Project.Entity, fault: Option<DbError>)
    ensures Update(db, id, data, fault).db.projects.Keys == db.projects.Keys
    ensures forall k :: k in db.projects ==> Update(db, id, data, fault).db.projects[k].id == db.projects[k].id
    ensures Update(db, id, data, fault).db.users == db.users
    ensures Update(db, id, data, fault).db.tasks == db.tasks
  {
    var o := Update(db, id, data, fault);
    if o.db != db {
      assert o.db == db.(projects := db.projects[id := Merge(db.projects[id], data)]);
    }
  }

  /** An update that supplies no start date leaves every start date as it was. */
  lemma UpdateKeepsStart(db: Database, id: string, data: Project.Entity, fault: Option<DbError>)
    requires data.startedAt.raw == ""
    ensures forall k :: k in db.projects ==> Update(db, id, data, fault).db.projects[k].startedAt == db.projects[k].startedAt
  {
    var o := Update(db, id, data, fault);
    if o.db != db {
      assert o.db.projects == db.projects[id := Merge(db.projects[id], data)];
    }
  }

  /** `Get`: the stored project, ErrNotFound for an unknown id, any other failure passed through. */
  function Get(db: Database, id: string, fault: Option<DbError>): (r: Result<Project.Entity, Error>)
    ensures r.Ok? <==> fault.None? && id in db.projects
    ensures r.Ok? ==> r.value == db.projects[id]
    ensures fault.None? && id !in db.projects ==> r == Err(Project.ErrNotFound)
    ensures fault.Some? ==> r == Err(NotFoundError(Projects, fault.value))
  {
    match ExecGet(db.projects, id, fault)
    case Ok(p) => Ok(p)
    case Err(e) => Err(NotFoundError(Projects, e))
  }

  /** `Delete`: the row goes; ErrNotFound for an unknown id. */
  function Delete(db: Database, id: string, fault: Option<DbError>): (o: Outcome<()>)
    ensures o.result.Ok? <==> fault.None? && id in db.projects
    ensures o.result.Ok? ==> o.db == db.(projects := db.projects - {id})
    ensures o.result.Err? ==> o.db == db
    ensures fault.None? && id !in db.projects ==> o.result == Err(Project.ErrNotFound)
    ensures fault.Some? ==> o.result == Err(NotFoundError(Projects, fault.value))
  {
    match ExecDelete(db.projects, id, fault)
    case Ok(t) => Outcome(Ok(()), db.(projects := db.projects - {id}))
    case Err(e) => Outcome(Err(NotFoundError(Projects, e)), db)
  }

  /** `List`: every project in scan order; a failure is passed through. */
  function List(db: Database, order: seq<string>, fault: Option<DbError>): (r: Result<seq<Project.Entity>, Error>)
    ensures r.Ok? <==> fault.None?
    ensures fault.Some? ==> r == Err(Driver(fault.value))
    ensures r.Ok? && Lists(order, db.projects) ==> |r.value| == |order| == |db.projects|
    ensures r.Ok? && Lists(order, db.projects) ==> forall i :: 0 <= i < |order| ==> r.value[i] == db.projects[order[i]]
  {
    match ExecSelectAll(db.projects, order, fault)
    case Ok(rows) => Ok(rows)
    case Err(e) => Err(Driver(e))
  }

  /** `prepareFilterArg`: "title" names its column, "manager" names manager_id; any other key becomes "". */
  function PrepareFilterArg(arg: string): (column: string)
    ensures column != "" <==> arg == "title" || arg == "manager"
    ensures arg == "title" ==> column == "title"
    ensures arg == "manager" ==> column == "manager_id"
  {
    match arg
    case "title" => "title"
    case "manager" => "manager_id"
    case _ => ""
  }

  /**
    `Search`: the projects whose filtered column equals the value, in scan
    order; an unknown key leaves an empty column name and the server's
    syntax error is passed through; no match is ErrNotFound.
   */
  function Search(db: Database, filter: string, value: string, order: seq<string>, fault: Option<DbError>)
    : (r: Result<seq<Project.Entity>, Error>)
    ensures PrepareFilterArg(filter) == "" ==> r == Err(Driver(SyntaxError))
    ensures PrepareFilterArg(filter) != "" && fault.Some? ==> r == Err(Driver(fault.value))
    ensures r.Ok? ==> r.value == Matching(db.projects, order, Value, PrepareFilterArg(filter), value) && r.value != []
    ensures PrepareFilterArg(filter) != "" && fault.None? ==>
      (r == Err(Project.ErrNotFound) <==> Matching(db.projects, order, Value, PrepareFilterArg(filter), value) == [])
    ensures PrepareFilterArg(filter) != "" && fault.None? ==>
      (r.Ok? <==> Matching(db.projects, order, Value, PrepareFilterArg(filter), value) != [])
    ensures PrepareFilterArg(filter) != "" && fault.None? ==> r.Ok? || r == Err(Project.ErrNotFound)
    ensures r.Ok? && Lists(order, db.projects) ==>
      && (forall k :: k in db.projects && Value(db.projects[k], PrepareFilterArg(filter)) == value ==> db.projects[k] in r.value)
      && |r.value| == |MatchKeys(db.projects, Value, PrepareFilterArg(filter), value)|
    ensures PrepareFilterArg(filter) != "" && fault.None? && Lists(order, db.projects) ==>
      (r == Err(Project.ErrNotFound) <==> forall k :: k in db.projects ==> Value(db.projects[k], PrepareFilterArg(filter)) != value)
  {
    var column := PrepareFilterArg(filter);
    match ExecSelectWhere(db.projects, Columns, Destination, (p: Project.Entity) => p, Value, column, value, order, fault)
    case Err(e) => Err(Driver(e))
    case Ok(rows) =>
      if |rows| == 0 then Err(Project.ErrNotFound) else Ok(rows)
  }
}
