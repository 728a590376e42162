/**
  The user operations of the management service
  (internal/service/management/user.go): request-to-entity mapping, the
  search guard, and the calls into `UserRepository`. Logging is left out.
 */
module UserService {
  import opened Wrappers
  import opened Domain
  import opened Sql
  import opened Store
  import User
  import UserRepository

  /** The entity `CreateUser` stores: an id made from the random bytes, then every request field, the date converted. */
  function NewEntity(req: User.Request, random: seq<byte>): (u: User.Entity)
    requires |random| == IdBytes
    ensures User.ParseFromEntity(u) ==
      User.Response(GenerateID(random), req.name, req.email, req.role, req.registrationDate)
  {
    User.Entity(GenerateID(random), req.name, req.email, OnlyDate(req.registrationDate), req.role)
  }

  /** `CreateUser`: store a new user under a fresh id; the repository's error comes back unchanged. */
  function CreateUser(db: Database, req: User.Request, random: seq<byte>, fault: Option<DbError>): (o: Outcome<string>)
    requires |random| == IdBytes
    ensures o.result.Ok? <==> fault.None? && GenerateID(random) !in db.users
    ensures o.result.Ok? ==>
      && o.result.value == GenerateID(random)
      && o.db == db.(users := db.users[GenerateID(random) := NewEntity(req, random)])
    ensures o.result.Err? ==> o.db == db
    ensures fault.None? && GenerateID(random) in db.users ==> o.result == Err(User.ErrExists)
    ensures fault.Some? ==> o.result == Err(CreateError(Users, fault.value))
  {
    UserRepository.Create(db, NewEntity(req, random), fault)
  }

  /** `GetUser`: the stored user as a response, or the repository's error unchanged. */
  function GetUser(db: Database, id: string, fault: Option<DbError>): (r: Result<User.Response, Error>)
    ensures r.Ok? <==> fault.None? && id in db.users
    ensures r.Ok? ==> User.ToEntity(r.value) == db.users[id]
    ensures fault.None? && id !in db.users ==> r == Err(User.ErrNotFound)
    ensures fault.Some? ==> r == Err(NotFoundError(Users, fault.value))
  {
    match UserRepository.Get(db, id, fault)
    case Ok(u) => Ok(User.ParseFromEntity(u))
    case Err(e) => Err(e)
  }

  /** The entity `UpdateUser` hands to the repository: the id and the registration date stay empty. */
  function UpdateEntity(req: User.UpdateRequest): (u: User.Entity)
    ensures u.id == "" && u.registrationDate.IsEmpty()
  {
    User.Entity("", req.name, req.email, OnlyDate(""), req.role)
  }

  /** An update request that supplies nothing. */
  predicate NothingSupplied(req: User.UpdateRequest) {
    req.name == "" && req.email == "" && req.role == ""
  }

  /** `UpdateUser`: the repository's update of the mapped entity; its error comes back unchanged. */
  function UpdateUser(db: Database, id: string, req: User.UpdateRequest, fault: Option<DbError>): (o: Outcome<()>)
    ensures NothingSupplied(req) ==> o == Outcome(Ok(()), db)
    ensures !NothingSupplied(req) ==> (o.result.Ok? <==> fault.None? && id in db.users)
    ensures !NothingSupplied(req) && o.result.Ok? ==>
      o.db == db.(users := db.users[id := UserRepository.Merge(db.users[id], UpdateEntity(req))])
    ensures o.result.Err? ==> o.db == db
    ensures !NothingSupplied(req) && fault.None? && id !in db.users ==> o.result == Err(User.ErrNotFound)
    ensures !NothingSupplied(req) && fault.Some? ==> o.result == Err(NotFoundError(Users, fault.value))
  {
    UserRepository.Update(db, id, UpdateEntity(req), fault)
  }

  /** `DeleteUser`: the repository's delete; its error comes back unchanged. */
  function DeleteUser(db: Database, id: string, fault: Option<DbError>): (o: Outcome<()>)
    ensures o.result.Ok? <==> fault.None? && id in db.users
    ensures o.result.Ok? ==> o.db == db.(users := db.users - {id})
    ensures o.result.Err? ==> o.db == db
    ensures fault.None? && id !in db.users ==> o.result == Err(User.ErrNotFound)
    ensures fault.Some? ==> o.result == Err(NotFoundError(Users, fault.value))
  {
    UserRepository.Delete(db, id, fault)
  }

  /** `ListUsers`: every stored user as a response, in scan order; a failure comes back unchanged. */
  function ListUsers(db: Database, order: seq<string>, fault: Option<DbError>): (r: Result<seq<User.Response>, Error>)
    ensures r.Ok? <==> fault.None?
    ensures fault.Some? ==> r == Err(Driver(fault.value))
    ensures r.Ok? && Lists(order, db.users) ==>
      && |r.value| == |order| == |db.users|
      && forall i :: 0 <= i < |order| ==> User.ToEntity(r.value[i]) == db.users[order[i]]
  {
    match UserRepository.List(db, order, fault)
    case Ok(us) => Ok(User.ParseFromEntities(us))
    case Err(e) => Err(e)
  }

  /** The guard `SearchUsers` applies before it reaches the repository. */
  predicate SearchRejected(filter: string, value: string) {
    value == "" || !User.IsValidFilter(filter)
  }

  /** The users a search on a known key is looking for, in scan order. */
  function Wanted(db: Database, filter: string, value: string, order: seq<string>): (us: seq<User.Entity>)
    ensures forall u :: u in us ==> UserRepository.Value(u, UserRepository.PrepareFilterArg(filter)) == value
  {
    Matching(db.users, order, UserRepository.Value, UserRepository.PrepareFilterArg(filter), value)
  }

  /**
    `SearchUsers`: an empty value or an empty key is ErrSearch whatever the
    store holds; a key the repository does not know reaches the server as an
    empty column and its syntax error comes back; otherwise the matching
    users as responses, ErrNotFound when there are none.
   */
  function SearchUsers(db: Database, filter: string, value: string, order: seq<string>, fault: Option<DbError>)
    : (r: Result<seq<User.Response>, Error>)
    ensures SearchRejected(filter, value) <==> r == Err(User.ErrSearch)
    ensures !SearchRejected(filter, value) && UserRepository.PrepareFilterArg(filter) == "" ==>
      r == Err(Driver(SyntaxError))
    ensures !SearchRejected(filter, value) && UserRepository.PrepareFilterArg(filter) != "" && fault.Some? ==>
      r == Err(Driver(fault.value))
    ensures !SearchRejected(filter, value) && UserRepository.PrepareFilterArg(filter) != "" && fault.None? ==>
      (r == Err(User.ErrNotFound) <==> Wanted(db, filter, value, order) == [])
    ensures !SearchRejected(filter, value) && UserRepository.PrepareFilterArg(filter) != "" && fault.None? ==>
      (r.Ok? <==> Wanted(db, filter, value, order) != [])
    ensures r.Ok? ==>
      && |r.value| == |Wanted(db, filter, value, order)|
      && forall i :: 0 <= i < |r.value| ==> User.ToEntity(r.value[i]) == Wanted(db, filter, value, order)[i]
    ensures r.Ok? && Lists(order, db.users) ==>
      && (forall k :: k in db.users && UserRepository.Value(db.users[k], UserRepository.PrepareFilterArg(filter)) == value ==>
            User.ParseFromEntity(db.users[k]) in r.value)
      && |r.value| == |MatchKeys(db.users, UserRepository.Value, UserRepository.PrepareFilterArg(filter), value)|
    ensures !SearchRejected(filter, value) && UserRepository.PrepareFilterArg(filter) != "" && fault.None? && Lists(order, db.users) ==>
      (r == Err(User.ErrNotFound) <==> forall k :: k in db.users ==> UserRepository.Value(db.users[k], UserRepository.PrepareFilterArg(filter)) != value)
  {
    if value == "" || !User.IsValidFilter(filter) then Err(User.ErrSearch)
    else
      match UserRepository.Search(db, filter, value, order, fault)
      case Ok(us) =>
        var rs := User.ParseFromEntities(us);
        assert forall e :: e in us ==> User.ParseFromEntity(e) in rs by {
          forall e | e in us ensures User.ParseFromEntity(e) in rs {
            var i :| 0 <= i < |us| && us[i] == e;
            User.ParseFromEntityBijective(e, rs[i]);
          }
        }
        Ok(rs)
      case Err(e) => Err(e)
  }

  // ---------------------------------------------------------------------------
  // Properties across operations
  // ---------------------------------------------------------------------------

  /** A created user can be read back under the id `CreateUser` returned, carrying the request's fields. */
  lemma CreateThenGet(db: Database, req: User.Request, p: Parsers, random: seq<byte>)
    requires User.ValidateRequest(req, p) == []
    requires |random| == IdBytes
    requires GenerateID(random) !in db.users
    ensures CreateUser(db, req, random, None).result == Ok(GenerateID(random))
    ensures GetUser(CreateUser(db, req, random, None).db, GenerateID(random), None) ==
      Ok(User.Response(GenerateID(random), req.name, req.email, req.role, req.registrationDate))
  {
  }

  /** After a successful delete the user is not found. */
  lemma DeleteThenGet(db: Database, id: string)
    ensures GetUser(DeleteUser(db, id, None).db, id, None) == Err(User.ErrNotFound)
  {
  }

  /** An update never changes which users exist, nor any user's id or registration date. */
  lemma UpdateKeepsIdentity(db: Database, id: string, req: User.UpdateRequest, fault: Option<DbError>)
    ensures UpdateUser(db, id, req, fault).db.users.Keys == db.users.Keys
    ensures forall k :: k in db.users ==>
      && UpdateUser(db, id, req, fault).db.users[k].id == db.users[k].id
      && UpdateUser(db, id, req, fault).db.users[k].registrationDate == db.users[k].registrationDate
  {
    UserRepository.UpdateKeepsIdentity(db, id, UpdateEntity(req), fault);
  }

  /** An update touches only the users table. */
  lemma UpdateKeepsOtherTables(db: Database, id: string, req: User.UpdateRequest, fault: Option<DbError>)
    ensures UpdateUser(db, id, req, fault).db.projects == db.projects
    ensures UpdateUser(db, id, req, fault).db.tasks == db.tasks
  {
  }

  /** Over a full scan with no failure, a stored user holding the value is found. */
  lemma StoredMatchFound(db: Database, filter: string, value: string, order: seq<string>, k: string)
    requires !SearchRejected(filter, value)
    requires UserRepository.PrepareFilterArg(filter) != ""
    requires Lists(order, db.users)
    requires k in db.users && UserRepository.Value(db.users[k], UserRepository.PrepareFilterArg(filter)) == value
    ensures SearchUsers(db, filter, value, order, None).Ok?
    ensures User.ParseFromEntity(db.users[k]) in SearchUsers(db, filter, value, order, None).value
  {
    MatchingComplete(db.users, order, UserRepository.Value, UserRepository.PrepareFilterArg(filter), value, k);
  }

  /** Keys the guard lets through but the repository does not know end in the server's syntax error. */
  lemma UnknownKeyReachesServer(db: Database, value: string, order: seq<string>, fault: Option<DbError>)
    requires value != ""
    ensures SearchUsers(db, "registration_date", value, order, fault) == Err(Driver(SyntaxError))
    ensures SearchUsers(db, "id", value, order, fault) == Err(Driver(SyntaxError))
  {
  }

  /** Searching by "role" returns exactly the users holding that role. */
  lemma SearchByRole(db: Database, value: string, order: seq<string>, fault: Option<DbError>)
    requires SearchUsers(db, "role", value, order, fault).Ok?
    ensures forall i :: 0 <= i < |SearchUsers(db, "role", value, order, fault).value| ==>
      SearchUsers(db, "role", value, order, fault).value[i].role == value
  {
    var r := SearchUsers(db, "role", value, order, fault).value;
    var w := Wanted(db, "role", value, order);
    assert UserRepository.PrepareFilterArg("role") == "role";
    forall i | 0 <= i < |r|
      ensures r[i].role == value
    {
      assert User.ToEntity(r[i]) == w[i];
      assert w[i] in w;
      assert UserRepository.Value(w[i], "role") == w[i].role;
    }
  }

  /** A create request that passed validation only carries a registration date that parses with the date layout. */
  lemma ValidatedCreateDatesParse(req: User.Request, p: Parsers, random: seq<byte>)
    requires |random| == IdBytes
    requires User.ValidateRequest(req, p) == []
    ensures NewEntity(req, random).registrationDate.InLayout(p)
  {
    User.ValidateRequestEmptyIff(req, p);
  }

  /** An update binds no date, validated or not. */
  lemma UpdateBindsNoDate(req: User.UpdateRequest)
    ensures forall i :: 0 <= i < |UserRepository.PrepareArgs(UpdateEntity(req)).args| ==>
      UserRepository.PrepareArgs(UpdateEntity(req)).args[i].Text?
  {
    UserRepository.BoundColumns(UpdateEntity(req));
  }

  /** Creating a user keeps every row stored under its own id. */
  lemma CreateKeepsKeys(db: Database, req: User.Request, random: seq<byte>, fault: Option<DbError>)
    requires |random| == IdBytes
    requires KeysMatch(db)
    ensures KeysMatch(CreateUser(db, req, random, fault).db)
  {
  }

  /** Updating a user keeps every row stored under its own id. */
  lemma UpdateKeepsKeys(db: Database, id: string, req: User.UpdateRequest, fault: Option<DbError>)
    requires KeysMatch(db)
    ensures KeysMatch(UpdateUser(db, id, req, fault).db)
  {
    UpdateKeepsIdentity(db, id, req, fault);
  }

  /** Deleting a user keeps every remaining row stored under its own id. */
  lemma DeleteKeepsKeys(db: Database, id: string, fault: Option<DbError>)
    requires KeysMatch(db)
    ensures KeysMatch(DeleteUser(db, id, fault).db)
  {
  }
}
