/**
  `UserRepository` (internal/repository/postgres/user.go) over the `users`
  table of the abstract store.
 */
module UserRepository {
  import opened Wrappers
  import opened Domain
  import opened Sql
  import opened Store
  import User

  /** The columns of `users`, in the order the INSERT names them. */
  const Columns: seq<string> := ["id", "name", "email", "registration_date", "role"]

  /** The column names `User.Entity` has fields for. */
  const Destination: set<string> := {"id", "name", "email", "registration_date", "role"}

  /** A column of a stored user as text. */
  function Value(u: User.Entity, column: string): string {
    match column
    case "id" => u.id
    case "name" => u.name
    case "email" => u.email
    case "registration_date" => u.registrationDate.raw
    case "role" => u.role
    case _ => ""
  }

  /** What one `column=$n` clause does to a user row. */
  function Assign(u: User.Entity, column: string, v: Arg): User.Entity {
    match FoldIdentifier(column)
    case "name" => u.(name := v.Raw())
    case "email" => u.(email := v.Raw())
    case "role" => u.(role := v.Raw())
    case _ => u
  }

  // ---------------------------------------------------------------------------
  // prepareArgs
  // ---------------------------------------------------------------------------

  /** Nothing to set: every field an update can carry is empty. */
  predicate NothingToSet(data: User.Entity) {
    data.name == "" && data.email == "" && data.role == ""
  }

  /** The clauses an update should carry: name, email and role, each only when non-empty, in that order. */
  function Supplied(data: User.Entity): (fields: seq<(string, Arg)>)
    ensures |fields| <= 3
    ensures fields == [] <==> NothingToSet(data)
    ensures forall f :: f in fields ==> f.1.Text? && f.0 in {"name", "email", "role"}
  {
    Optional(data.name != "", "name", Text(data.name))
    + Optional(data.email != "", "email", Text(data.email))
    + Optional(data.role != "", "role", Text(data.role))
  }

  /**
    `prepareArgs`: parallel `sets` and `args` holding exactly the supplied
    fields in order, numbered `$1..$n`; the id and the registration date
    never appear.
   */
  function PrepareArgs(data: User.Entity): (l: SetList)
    ensures Numbered(l)
    ensures Describes(l, Supplied(data))
    ensures l.sets == [] <==> NothingToSet(data)
  {
    StartThreeDescribes(data.name != "", "name", Text(data.name), data.email != "", "email", Text(data.email),
                        data.role != "", "role", Text(data.role));
    var l1 := Append(NoSets(), data.name != "", "name", Text(data.name));
    var l2 := Append(l1, data.email != "", "email", Text(data.email));
    Append(l2, data.role != "", "role", Text(data.role))
  }

  /** An update only ever sets name, email or role, and binds no date at all: every argument is text. */
  lemma BoundColumns(data: User.Entity)
    ensures forall i :: 0 <= i < |PrepareArgs(data).sets| ==> PrepareArgs(data).sets[i].column in {"name", "email", "role"}
    ensures forall i :: 0 <= i < |PrepareArgs(data).args| ==> PrepareArgs(data).args[i].Text?
  {
    var l := PrepareArgs(data);
    forall i | 0 <= i < |l.args|
      ensures l.sets[i].column in {"name", "email", "role"}
      ensures l.args[i].Text?
    {
      assert Supplied(data)[i] in Supplied(data);
    }
  }

  /** The row an update should leave: each supplied field replaced, everything else kept. */
  function Merge(prev: User.Entity, data: User.Entity): (r: User.Entity)
    ensures r.id == prev.id && r.registrationDate == prev.registrationDate
  {
    prev.(name := if data.name != "" then data.name else prev.name,
         email := if data.email != "" then data.email else prev.email,
         role := if data.role != "" then data.role else prev.role)
  }

  /** What the three clauses an update can carry do to a row. */
  lemma AssignColumns(u: User.Entity, v: Arg)
    ensures Assign(u, "name", v) == u.(name := v.Raw())
    ensures Assign(u, "email", v) == u.(email := v.Raw())
    ensures Assign(u, "role", v) == u.(role := v.Raw())
  {
    FoldLowerCase("name");
    assert Assign(u, "name", v) == u.(name := v.Raw());
    FoldLowerCase("email");
    assert Assign(u, "email", v) == u.(email := v.Raw());
    FoldLowerCase("role");
  }

  /** Applying the supplied fields in order merges them into the row. */
  lemma SuppliedMerge(prev: User.Entity, data: User.Entity)
    ensures ApplyFields(prev, Assign, Supplied(data)) == Merge(prev, data)
  {
    var f1 := Optional(data.name != "", "name", Text(data.name));
    var f2 := Optional(data.email != "", "email", Text(data.email));
    var f3 := Optional(data.role != "", "role", Text(data.role));
    var m1 := ApplyFields(prev, Assign, f1);
    var m2 := ApplyFields(m1, Assign, f2);
    var m3 := ApplyFields(m2, Assign, f3);
    assert ApplyFields(prev, Assign, Supplied(data)) == m3 by {
      ApplyFieldsConcat(prev, Assign, f1 + f2, f3);
      ApplyFieldsConcat(prev, Assign, f1, f2);
    }
    assert m1 == prev.(name := if data.name != "" then data.name else prev.name) by {
      ApplyOptional(prev, Assign, data.name != "", "name", Text(data.name));
      AssignColumns(prev, Text(data.name));
    }
    assert m2 == m1.(email := if data.email != "" then data.email else prev.email) by {
      ApplyOptional(m1, Assign, data.email != "", "email", Text(data.email));
      AssignColumns(m1, Text(data.email));
    }
    assert m3 == m2.(role := if data.role != "" then data.role else prev.role) by {
      ApplyOptional(m2, Assign, data.role != "", "role", Text(data.role));
      AssignColumns(m2, Text(data.role));
    }
  }

  /** Applying the SET list `prepareArgs` builds, with any WHERE argument after it, merges the supplied fields. */
  lemma PrepareArgsMerge(prev: User.Entity, data: User.Entity, more: seq<Arg>)
    ensures Bound(PrepareArgs(data).sets, PrepareArgs(data).args + more)
    ensures ApplySets(prev, Assign, PrepareArgs(data).sets, PrepareArgs(data).args + more) == Merge(prev, data)
  {
    ApplyDescribed(prev, Assign, PrepareArgs(data), Supplied(data), more);
    SuppliedMerge(prev, data);
  }

  // ---------------------------------------------------------------------------
  // Operations
  // ---------------------------------------------------------------------------

  /** `Create`: insert the user; a duplicate key or a missing returned row is ErrExists. */
  function Create(db: Database, u: User.Entity, fault: Option<DbError>): (o: Outcome<string>)
    ensures o.result.Ok? <==> fault.None? && u.id !in db.users
    ensures o.result.Ok? ==> o.result.value == u.id && o.db == db.(users := db.users[u.id := u])
    ensures o.result.Err? ==> o.db == db
    ensures fault.None? && u.id in db.users ==> o.result == Err(User.ErrExists)
    ensures fault.Some? ==> o.result == Err(CreateError(Users, fault.value))
  {
    match ExecInsert(db.users, u.id, u, fault)
    case Ok((id, t)) => Outcome(Ok(id), db.(users := t))
    case Err(e) => Outcome(Err(CreateError(Users, e)), db)
  }

  /**
    `Update`: with nothing to set no statement runs and the result is
    success even for an unknown id; otherwise the row takes the supplied
    fields, and a missing row is ErrNotFound.
   */
  function Update(db: Database, id: string, data: User.Entity, fault: Option<DbError>): (o: Outcome<()>)
    ensures NothingToSet(data) ==> o == Outcome(Ok(()), db)
    ensures !NothingToSet(data) ==> (o.result.Ok? <==> fault.None? && id in db.users)
    ensures !NothingToSet(data) && o.result.Ok? ==> o.db == db.(users := db.users[id := Merge(db.users[id], data)])
    ensures o.result.Err? ==> o.db == db
    ensures !NothingToSet(data) && fault.None? && id !in db.users ==> o.result == Err(User.ErrNotFound)
    ensures !NothingToSet(data) && fault.Some? ==> o.result == Err(NotFoundError(Users, fault.value))
  {
    var l := PrepareArgs(data);
    match AssembleUpdate("users", l, id)
    case None => Outcome(Ok(()), db)
    case Some(st) =>
      PrepareArgsMerge(if id in db.users then db.users[id] else data, data, [Text(id)]);
      match ExecUpdate(db.users, st, Assign, fault)
      case Ok(t) => Outcome(Ok(()), db.(users := t))
      case Err(e) => Outcome(Err(NotFoundError(Users, e)), db)
  }

  /** An update never changes which users exist, nor any user's id or registration date. */
  lemma UpdateKeepsIdentity(db: Database, id: string, data: User.Entity, fault: Option<DbError>)
    ensures Update(db, id, data, fault).db.users.Keys == db.users.Keys
    ensures forall k :: k in db.users ==>
      && Update(db, id, data, fault).db.users[k].id == db.users[k].id
      && Update(db, id, data, fault).db.users[k].registrationDate == db.users[k].registrationDate
  {
    var o := Update(db, id, data, fault);
    if !NothingToSet(data) && o.result.Ok? {
      assert o.db.users == db.users[id := Merge(db.users[id], data)];
    }
  }

  /** `Get`: the stored user, ErrNotFound for an unknown id, any other failure passed through. */
  function Get(db: Database, id: string, fault: Option<DbError>): (r: Result<User.Entity, Error>)
    ensures r.Ok? <==> fault.None? && id in db.users
    ensures r.Ok? ==> r.value == db.users[id]
    ensures fault.None? && id !in db.users ==> r == Err(User.ErrNotFound)
    ensures fault.Some? ==> r == Err(NotFoundError(Users, fault.value))
  {
    match ExecGet(db.users, id, fault)
    case Ok(u) => Ok(u)
    case Err(e) => Err(NotFoundError(Users, e))
  }

  /** `Delete`: the row goes; ErrNotFound for an unknown id. */
  function Delete(db: Database, id: string, fault: Option<DbError>): (o: Outcome<()>)
    ensures o.result.Ok? <==> fault.None? && id in db.users
    ensures o.result.Ok? ==> o.db == db.(users := db.users - {id})
    ensures o.result.Err? ==> o.db == db
    ensures fault.None? && id !in db.users ==> o.result == Err(User.ErrNotFound)
    ensures fault.Some? ==> o.result == Err(NotFoundError(Users, fault.value))
  {
    match ExecDelete(db.users, id, fault)
    case Ok(t) => Outcome(Ok(()), db.(users := db.users - {id}))
    case Err(e) => Outcome(Err(NotFoundError(Users, e)), db)
  }

  /** `List`: every user in scan order; a failure is passed through. */
  function List(db: Database, order: seq<string>, fault: Option<DbError>): (r: Result<seq<User.Entity>, Error>)
    ensures r.Ok? <==> fault.None?
    ensures fault.Some? ==> r == Err(Driver(fault.value))
    ensures r.Ok? && Lists(order, db.users) ==> |r.value| == |order| == |db.users|
    ensures r.Ok? && Lists(order, db.users) ==> forall i :: 0 <= i < |order| ==> r.value[i] == db.users[order[i]]
  {
    match ExecSelectAll(db.users, order, fault)
    case Ok(rows) => Ok(rows)
    case Err(e) => Err(Driver(e))
  }

  /** `prepareFilterArg`: name, email and role name their own columns; any other key becomes "". */
  function PrepareFilterArg(arg: string): (column: string)
    ensures column != "" <==> arg == "name" || arg == "email" || arg == "role"
    ensures column != "" ==> column == arg
  {
    match arg
    case "name" => "name"
    case "email" => "email"
    case "role" => "role"
    case _ => ""
  }

  /**
    `Search`: the users whose filtered column equals the value, in scan
    order; an unknown key leaves an empty column name and the server's
    syntax error is passed through; no match is ErrNotFound.
   */
  function Search(db: Database, filter: string, value: string, order: seq<string>, fault: Option<DbError>)
    : (r: Result<seq<User.Entity>, Error>)
    ensures PrepareFilterArg(filter) == "" ==> r == Err(Driver(SyntaxError))
    ensures PrepareFilterArg(filter) != "" && fault.Some? ==> r == Err(Driver(fault.value))
    ensures r.Ok? ==> r.value == Matching(db.users, order, Value, PrepareFilterArg(filter), value) && r.value != []
    ensures PrepareFilterArg(filter) != "" && fault.None? ==>
      (r == Err(User.ErrNotFound) <==> Matching(db.users, order, Value, PrepareFilterArg(filter), value) == [])
    ensures PrepareFilterArg(filter) != "" && fault.None? ==>
      (r.Ok? <==> Matching(db.users, order, Value, PrepareFilterArg(filter), value) != [])
    ensures PrepareFilterArg(filter) != "" && fault.None? ==> r.Ok? || r == Err(User.ErrNotFound)
    ensures r.Ok? && Lists(order, db.users) ==>
      && (forall k :: k in db.users && Value(db.users[k], PrepareFilterArg(filter)) == value ==> db.users[k] in r.value)
      && |r.value| == |MatchKeys(db.users, Value, PrepareFilterArg(filter), value)|
    ensures PrepareFilterArg(filter) != "" && fault.None? && Lists(order, db.users) ==>
      (r == Err(User.ErrNotFound) <==> forall k :: k in db.users ==> Value(db.users[k], PrepareFilterArg(filter)) != value)
  {
    var column := PrepareFilterArg(filter);
    match ExecSelectWhere(db.users, Columns, Destination, (u: User.Entity) => u, Value, column, value, order, fault)
    case Err(e) => Err(Driver(e))
    case Ok(rows) =>
      if |rows| == 0 then Err(User.ErrNotFound) else Ok(rows)
  }
}
