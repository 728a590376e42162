/**
  The database the three repositories share: one table per resource, each a
  map from primary key to row, and the result-plus-state pair every writing
  operation returns.
 */
module Store {
  import opened Wrappers
  import opened Domain
  import Task
  import Project
  import User

  datatype Database = Database(
    users: map<string, User.Entity>,
    projects: map<string, Project.Entity>,
    tasks: map<string, Task.Entity>)

  /** What an operation returns, and the database it leaves behind. */
  datatype Outcome<R> = Outcome(result: Result<R, Error>, db: Database)

  /** Every row is stored under its own id. */
  predicate KeysMatch(db: Database) {
    && (forall k :: k in db.users ==> db.users[k].id == k)
    && (forall k :: k in db.projects ==> db.projects[k].id == k)
    && (forall k :: k in db.tasks ==> db.tasks[k].id == k)
  }
}
