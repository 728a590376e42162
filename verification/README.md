# project-management core, modelled in Dafny

A model of the rules inside the project-management service's CRUD pipeline
for its three resources: tasks, projects and users. It covers:

- the request validators of each resource;
- the search-filter predicates and the key-to-column maps;
- the partial-update SET-list builder and the UPDATE statement assembled from it;
- the repositories' error mapping over an abstract database;
- the management service's request-to-entity mapping and search guard;
- the identifier generator and the date-only string type.

Everything is a pure function over immutable datatypes. A failure the data
cannot explain, the random bytes and the scan order of the database are all
inputs.

Modules, one per source component:

- `Wrappers`: `Option` and `Result`.
- `Domain` (internal/domain/domain.go):
  - `ErrorResponse`;
  - `OnlyDate`, with `String` and `InLayout`, whether its text parses with the date layout;
  - `GenerateID` as lower-case hexadecimal of twelve given bytes, with a decoder proving it injective;
  - Go's byte length `ByteLen`;
  - the `Parsers` parameter standing for `time.Parse` and the email regular expression;
  - the error taxonomy: each resource's sentinels, plus driver errors passed through.
- `Validation`: the error-list vocabulary the three validators share:
  - `Check` (one `if … { errs = append(…) }`);
  - `HasError` (some error names a field);
  - `Ordered` (errors come in check order, each field at most once).
- `Task`, `Project`, `User` (internal/domain/*/dto.go and entity.go):
  - entities, requests and responses;
  - `ValidateRequest` and `ValidateUpdate`;
  - `ParseFromEntity` and `ParseFromEntities` with their inverse;
  - `IsValidFilter`, exactly as written;
  - the sentinels.
- `Sql`: what every repository does with the database, independent of the table:
  - the `sets`/`args` lists and the `Append` step of `prepareArgs`;
  - `AssembleUpdate` (`UPDATE … WHERE id = $len(args)`);
  - what the server does with INSERT, SELECT by id, DELETE, UPDATE, and SELECT with or without a WHERE column;
  - the error mappings of `Create` and of `Get`/`Update`/`Delete`;
  - the server's lower-casing of unquoted identifiers.
- `Store`: the three tables as maps from id to row, and the result-plus-database pair each writing operation returns.
- `TaskRepository`, `ProjectRepository`, `UserRepository` (internal/repository/postgres/*.go):
  - `prepareArgs`, `prepareFilterArg` and the five operations;
  - for each, the row an update leaves (`Merge`), proved equal to what the server does with the SET list `prepareArgs` builds.
- `TaskService`, `ProjectService`, `UserService` (internal/service/management/*.go): the service operations over the store, with cross-operation properties:
  - create-then-get;
  - delete-then-get;
  - what an update leaves untouched;
  - validated requests only carry dates that parse with the date layout;
  - rows stay stored under their own id.

## Model

| member | source | states |
|---|---|---|
| Domain.ByteLen | internal/domain/task/dto.go:35 | Go's `len` of a string is at least its character count and at most four times it, and is zero only for the empty string |
| Domain.AsciiByteLen | internal/domain/task/dto.go:35-44 | on ASCII text the byte length the length checks use is the character count |
| Domain.NonAsciiByteLen | internal/domain/project/dto.go:26-32 | a single non-ASCII character makes the byte length exceed the character count, so the limits count bytes, not characters |
| Domain.DateStringRoundTrip | internal/domain/domain.go:42-44 | converting a string to an `OnlyDate` and back with `String` gives the same string |
| Domain.HexEncode | internal/domain/domain.go:49 | the encoding has two characters per byte, all of them in `[0-9a-f]` |
| Domain.HexRoundTrip | internal/domain/domain.go:49 | decoding the hexadecimal encoding of any byte string gives the bytes back |
| Domain.HexInjective | internal/domain/domain.go:49 | two byte strings with the same encoding are equal |
| Domain.GenerateID | internal/domain/domain.go:46-50 | the identifier made from the 12 random bytes has exactly 24 lower-case hexadecimal characters and decodes back to those bytes |
| Domain.GenerateIDInjective | internal/domain/domain.go:46-50 | different random bytes always give different identifiers |
| Domain.SentinelMessagesDistinct | internal/domain/task/entity.go:33-43 | two sentinels share a message exactly when they are the same sentinel, and `Is` agrees with comparing messages |
| Task.SentinelsDistinct | internal/domain/task/entity.go:19-23 | ErrExists, ErrNotFound and ErrSearch are pairwise distinct under `Is` and have pairwise different messages |
| Task.IsValidPriority | internal/domain/task/dto.go:65-72 | a priority is accepted exactly when it is one of "low", "medium", "high", spelled exactly so |
| Task.IsValidStatus | internal/domain/task/dto.go:74-81 | a status is accepted exactly when it is one of "active", "in_progress", "done", spelled exactly so |
| Task.EnumerationsRejectVariants | internal/domain/task/dto.go:65-81 | the empty string, other capitalisations and unknown words are rejected as priority and as status |
| Task.TitleErrors | internal/domain/task/dto.go:32-37 | the two title checks only ever name "title", fire exactly when the title is empty or over 100 bytes, and never both fire: an empty title gives exactly one "title is required" |
| Task.DescriptionErrors | internal/domain/task/dto.go:39-44 | the two description checks fire exactly when the description is empty or at least 200 bytes long, and never both fire |
| Task.ValidateRequest | internal/domain/task/dto.go:29-63 | a create request's error list names a field exactly when that field breaks its rule (title, description, created_at, done_at, priority, status) |
| Task.ValidateRequestEmptyIff | internal/domain/task/dto.go:29-63 | the error list is empty exactly when the title is non-empty and at most 100 bytes, the description is non-empty and under 200 bytes, both dates parse, and priority and status are allowed values |
| Task.ValidateRequestOrdered | internal/domain/task/dto.go:29-63 | errors come in the order title, description, created_at, done_at, priority, status, with each field at most once, so there are at most six |
| Task.EmptyRequestReportsEveryField | internal/domain/task/dto.go:29-63 | every check runs: an all-empty request gets all six errors in check order, given parsers that reject the empty string |
| Task.MissingTitleReportedOnce | internal/domain/task/dto.go:32-37 | an empty title gives "title is required" as the first error and no other title error |
| Task.TitleBoundary | internal/domain/task/dto.go:35 | an ASCII title of 100 characters is accepted and one of 101 is reported |
| Task.DescriptionBoundary | internal/domain/task/dto.go:42 | an ASCII description of 199 characters is accepted and one of 200 is reported |
| Task.ValidateUpdate | internal/domain/task/dto.go:83-107 | an update's error list names a field exactly when the field is supplied (non-empty) and breaks its rule |
| Task.UpdateAgreesWithCreate | internal/domain/task/dto.go:83-107 | an update reports a field exactly when it is one of the five it checks, it is supplied, and a create request with the same value would report it |
| Task.EmptyUpdateValid | internal/domain/task/dto.go:83-107 | an update that supplies none of the checked fields has no errors |
| Task.ValidateUpdateOrdered | internal/domain/task/dto.go:83-107 | update errors come in check order, each at most once, and name only title, description, done_at, priority or status |
| Task.ValidateUpdateNeverRequires | internal/domain/task/dto.go:83-107 | an update never reports a field as required |
| Task.ParseFromEntity | internal/domain/task/dto.go:121-133 | the response determines the entity: reading it back gives every field, dates as their text |
| Task.ParseFromEntityBijective | internal/domain/task/dto.go:121-133 | responses and entities correspond one to one |
| Task.ParseFromEntities | internal/domain/task/dto.go:135-141 | one response per entity, same length and order, each reading back to its entity |
| Task.IsValidFilter | internal/domain/task/entity.go:25-31 | as written, the filter check accepts exactly the non-empty strings |
| Task.FilterAcceptsAnyKey | internal/domain/task/entity.go:26 | keys outside the intended list, such as "user_id" and "xyz", pass; only "" fails |
| Project.SentinelsDistinct | internal/domain/project/entity.go:14-18 | the three project sentinels are pairwise distinct and carry their own messages |
| Project.ValidateRequest | internal/domain/project/dto.go:23-43 | a create request's error list names a field exactly when it breaks its rule (title, description, started_at, finished_at) |
| Project.ValidateRequestEmptyIff | internal/domain/project/dto.go:23-43 | no errors exactly when the title is at most 100 bytes, the description at most 200 bytes, and both dates parse |
| Project.ValidateRequestOrdered | internal/domain/project/dto.go:23-43 | errors come in check order, each field at most once, so there are at most four |
| Project.EmptyTextAccepted | internal/domain/project/dto.go:26-32 | an empty title and an empty description are not reported: neither is required |
| Project.DescriptionBoundary | internal/domain/project/dto.go:30 | an ASCII description of 200 characters is accepted and one of 201 is reported |
| Project.ValidateUpdate | internal/domain/project/dto.go:45-61 | an update's error list names a field exactly when it is supplied and breaks its rule; the manager is never checked |
| Project.UpdateAgreesWithCreate | internal/domain/project/dto.go:45-61 | an update reports a field exactly when it is title, description or a supplied finished_at that a create request would report |
| Project.EmptyUpdateValid | internal/domain/project/dto.go:45-61 | an update supplying no title, description or finished_at has no errors |
| Project.ValidateUpdateOrdered | internal/domain/project/dto.go:45-61 | update errors come in check order, at most three |
| Project.ParseFromEntity | internal/domain/project/dto.go:72-81 | the response determines the entity, dates as their text |
| Project.ParseFromEntityBijective | internal/domain/project/dto.go:72-81 | responses and entities correspond one to one |
| Project.ParseFromEntities | internal/domain/project/dto.go:83-89 | one response per entity, in the same order |
| Project.IsValidFilter | internal/domain/project/entity.go:20-30 | a key is accepted exactly when it is "title" or "manager" |
| Project.FilterRejectsColumnName | internal/domain/project/entity.go:21-27 | the column name "manager_id", the empty key and other columns are rejected |
| User.SentinelsDistinct | internal/domain/user/entity.go:15-19 | the three user sentinels are pairwise distinct and carry their own messages |
| User.ValidateRequest | internal/domain/user/dto.go:22-42 | a create request's error list names a field exactly when it breaks its rule (name, email, role, registration_date) |
| User.ValidateRequestEmptyIff | internal/domain/user/dto.go:22-42 | no errors exactly when the name is non-empty, the email matches, the role is "admin" or "manager", and the date parses |
| User.ValidateRequestOrdered | internal/domain/user/dto.go:22-42 | errors come in check order, each field at most once, so there are at most four |
| User.RoleIsCaseSensitive | internal/domain/user/dto.go:33-35 | "Admin", "MANAGER", "superadmin" and "" are reported as invalid roles |
| User.ValidateUpdate | internal/domain/user/dto.go:44-56 | an update's error list names a field exactly when it is a supplied email that does not match or a supplied role that is not allowed |
| User.UpdateAgreesWithCreate | internal/domain/user/dto.go:44-56 | an update reports only email or role, and exactly when the value is supplied and a create request would report it; the name is never checked |
| User.EmptyUpdateValid | internal/domain/user/dto.go:44-56 | an update supplying no email and no role has no errors |
| User.ValidateUpdateOrdered | internal/domain/user/dto.go:44-56 | update errors come in check order, at most two |
| User.UnknownRoleReportedOnce | internal/domain/user/dto.go:51-53 | an update with role "superadmin" and nothing else gives exactly the one error "invalid role" |
| User.ParseFromEntity | internal/domain/user/dto.go:66-74 | the response determines the entity, the date as its text |
| User.ParseFromEntityBijective | internal/domain/user/dto.go:66-74 | responses and entities correspond one to one |
| User.ParseFromEntities | internal/domain/user/dto.go:76-84 | one response per entity, in the same order |
| User.IsValidFilter | internal/domain/user/entity.go:21-27 | as written, the filter check accepts exactly the non-empty strings |
| User.FilterAcceptsAnyKey | internal/domain/user/entity.go:22 | "role", "name" and "registration_date" pass; only "" fails |
| Sql.Append | internal/repository/postgres/task.go:132-135 | one `prepareArgs` step: an unsupplied field changes nothing; a supplied one adds one clause and one argument, and the clause's placeholder is the new argument count, naming that value |
| Sql.AppendDescribes | internal/repository/postgres/user.go:134-151 | a step adds exactly its field to the list of fields the SET list holds, keeping `$i` for the i-th clause |
| Sql.AssembleUpdate | internal/repository/postgres/task.go:53-56 | no statement when there are no clauses; otherwise the id is the last argument and the WHERE placeholder is the clause count plus one, naming it |
| Sql.ApplyDescribed | internal/repository/postgres/task.go:56-58 | the server applying a SET list does to the row what applying its fields in order does, whatever arguments follow |
| Sql.ExecInsert | internal/repository/postgres/task.go:31-38 | the insert succeeds exactly when there is no fault and the key is new, adds the row and returns its id; a taken key is a unique violation |
| Sql.ExecGet | internal/repository/postgres/task.go:72-76 | the read succeeds exactly when there is no fault and the key exists, and returns that row; a missing key is no rows |
| Sql.ExecDelete | internal/repository/postgres/task.go:87-91 | the delete succeeds exactly when there is no fault and the key exists, removing that key only and keeping every other row |
| Sql.ExecUpdate | internal/repository/postgres/task.go:56-58 | the row under the WHERE argument takes the clauses; no such row is no rows |
| Sql.ExecSelectAll | internal/repository/postgres/task.go:101-109 | without a fault, a full scan returns one row per key in scan order |
| Sql.MatchingComplete | internal/repository/postgres/project.go:118-120 | every row of the scan whose column holds the value is among the rows a filtered select returns |
| Sql.ExecSelectWhere | internal/repository/postgres/project.go:113-123 | an empty column is a syntax error; an unknown column is an undefined column; a valid column with no failure always succeeds, returning the matching rows in scan order, and over a full scan every stored row holding the value, one per matching key, empty exactly when no stored row holds it |
| Sql.MatchingOfListing | internal/repository/postgres/project.go:113-123 | over a full scan the filtered rows include every stored row holding the value, number one per matching key, and are empty exactly when no stored row holds it |
| Sql.CreateError | internal/repository/postgres/task.go:39-45 | no rows and a unique violation both become ErrExists; every other error passes through unchanged |
| Sql.NotFoundError | internal/repository/postgres/task.go:59-63 | no rows becomes ErrNotFound; every other error passes through unchanged |
| UserRepository.Supplied | internal/repository/postgres/user.go:134-151 | the fields an update sets are among name, email and role, at most three, all text, and none exactly when all three are empty |
| UserRepository.PrepareArgs | internal/repository/postgres/user.go:134-151 | `sets` and `args` hold exactly the supplied fields in order, the i-th clause with placeholder `$i` naming the i-th argument; empty exactly when nothing is supplied |
| UserRepository.BoundColumns | internal/repository/postgres/user.go:134-151 | an update only sets name, email or role; id and registration_date never appear, and no date is bound |
| UserRepository.PrepareArgsMerge | internal/repository/postgres/user.go:53-58 | the statement `Update` sends replaces exactly the supplied fields of the row |
| UserRepository.Create | internal/repository/postgres/user.go:30-50 | insert succeeds exactly for a new id, returns that id and adds the row; a taken id is ErrExists; a failed insert changes nothing |
| UserRepository.Update | internal/repository/postgres/user.go:52-67 | nothing supplied is success without any write, even for an unknown id; otherwise the row takes the supplied fields, a missing row is ErrNotFound, and other errors pass through |
| UserRepository.UpdateKeepsIdentity | internal/repository/postgres/user.go:52-67 | an update never changes which users exist, nor any id or registration date |
| UserRepository.Get | internal/repository/postgres/user.go:69-84 | the stored user, ErrNotFound for an unknown id, any other failure passed through |
| UserRepository.Delete | internal/repository/postgres/user.go:86-99 | the row goes; ErrNotFound for an unknown id; a failure changes nothing |
| UserRepository.List | internal/repository/postgres/user.go:101-112 | every user in scan order, or the failure passed through |
| UserRepository.PrepareFilterArg | internal/repository/postgres/user.go:153-164 | name, email and role map to themselves; every other key maps to "" |
| UserRepository.Search | internal/repository/postgres/user.go:114-132 | an unknown key is the server's syntax error; with a known key and no failure the result is a success exactly when some scanned user holds the value and ErrNotFound otherwise; a success is the non-empty list of users whose column equals the value, and over a full scan every stored user holding it, one per matching id; ErrNotFound exactly when no stored user holds it |
| ProjectRepository.Supplied | internal/repository/postgres/project.go:133-160 | the fields an update sets, at most five, none exactly when all are empty, and only supplied start or finish dates are dates |
| ProjectRepository.PrepareArgs | internal/repository/postgres/project.go:133-160 | `sets` and `args` hold exactly the supplied fields in the order title, description, manager_id, started_at, finished_at, numbered `$1..$n`; empty exactly when nothing is supplied |
| ProjectRepository.BoundDates | internal/repository/postgres/project.go:149-157 | the only dates an update binds are a supplied start or finish date |
| ProjectRepository.PrepareArgsMerge | internal/repository/postgres/project.go:53-58 | the statement `Update` sends replaces exactly the supplied fields of the row |
| ProjectRepository.Create | internal/repository/postgres/project.go:30-50 | insert succeeds exactly for a new id; a taken id or a missing returned row is ErrExists; a failed insert changes nothing |
| ProjectRepository.Update | internal/repository/postgres/project.go:52-67 | nothing supplied is a silent no-op; otherwise the row takes the supplied fields, and a missing row is ErrNotFound |
| ProjectRepository.UpdateKeepsIdentity | internal/repository/postgres/project.go:52-67 | an update never changes which projects exist, any id, or another table |
| ProjectRepository.UpdateKeepsStart | internal/repository/postgres/project.go:149-152 | an update that supplies no start date leaves every start date as it was |
| ProjectRepository.Get | internal/repository/postgres/project.go:85-100 | the stored project, ErrNotFound for an unknown id, any other failure passed through |
| ProjectRepository.Delete | internal/repository/postgres/project.go:69-83 | the row goes; ErrNotFound for an unknown id |
| ProjectRepository.List | internal/repository/postgres/project.go:102-111 | every project in scan order, or the failure passed through |
| ProjectRepository.PrepareFilterArg | internal/repository/postgres/project.go:162-171 | "title" maps to title, "manager" to manager_id, everything else to "" |
| ProjectRepository.Search | internal/repository/postgres/project.go:113-131 | an unknown key is the server's syntax error; with a known key and no failure the result is a success exactly when some scanned project holds the value and ErrNotFound otherwise; a success is the non-empty list of matching projects, and over a full scan every stored project holding the value, one per matching id; ErrNotFound exactly when no stored project holds it |
| TaskRepository.TitleFolds | internal/repository/postgres/task.go:132-135 | the clause written `Title=$n` sets the title column, because the server lower-cases unquoted identifiers |
| TaskRepository.Supplied | internal/repository/postgres/task.go:131-168 | the fields an update sets, at most seven, none exactly when all are empty, and the only date is a supplied done_at |
| TaskRepository.PrepareArgs | internal/repository/postgres/task.go:131-168 | `sets` and `args` hold exactly the supplied fields in the order Title, description, priority, status, author_id, project_id, done_at, numbered `$1..$n`; empty exactly when nothing is supplied |
| TaskRepository.BoundDates | internal/repository/postgres/task.go:162-165 | the only date an update binds is a supplied completion date |
| TaskRepository.PrepareArgsMerge | internal/repository/postgres/task.go:53-58 | the statement `Update` sends replaces exactly the supplied fields of the row |
| TaskRepository.Create | internal/repository/postgres/task.go:30-50 | insert succeeds exactly for a new id; a taken id or a missing returned row is ErrExists |
| TaskRepository.Update | internal/repository/postgres/task.go:52-67 | nothing supplied is a no-op returning success; otherwise the row takes the supplied fields, and a missing row is ErrNotFound |
| TaskRepository.UpdateKeepsIdentity | internal/repository/postgres/task.go:52-67 | an update never changes which tasks exist, any id, or another table |
| TaskRepository.UpdateKeepsCreated | internal/repository/postgres/task.go:131-168 | an update never changes any task's creation date |
| TaskRepository.Get | internal/repository/postgres/task.go:69-84 | the stored task, ErrNotFound for an unknown id, any other failure passed through |
| TaskRepository.Delete | internal/repository/postgres/task.go:86-99 | the row goes; ErrNotFound for an unknown id |
| TaskRepository.List | internal/repository/postgres/task.go:101-109 | every task in scan order, or the failure passed through |
| TaskRepository.PrepareFilterArg | internal/repository/postgres/task.go:170-191 | "assignee" maps to author_id, the seven other known keys to themselves, everything else to ""; every non-empty result is a task column |
| TaskRepository.KnownKeysPassFilter | internal/domain/task/entity.go:25-31 | every key the repository maps to a column passes the domain's filter check |
| TaskRepository.FilterColumnsNotInUsers | internal/repository/postgres/task.go:116 | no column a task filter can name is a column of `users`, the table the query reads |
| TaskRepository.Search | internal/repository/postgres/task.go:111-129 | as written the query reads `users`: an unknown key is a syntax error and every known key an undefined column |
| TaskRepository.SearchNeverSucceeds | internal/repository/postgres/task.go:111-129 | task search always fails with a driver error and never reaches its ErrNotFound branch |
| TaskService.NewEntity | internal/service/management/tasks.go:13-23 | the stored task's response is the fresh id followed by every request field unchanged |
| TaskService.CreateTask | internal/service/management/tasks.go:10-32 | the task is stored under the generated id, which is returned; the repository's error comes back unchanged |
| TaskService.GetTask | internal/service/management/tasks.go:34-46 | the stored task as its response, or the repository's error unchanged |
| TaskService.UpdateEntity | internal/service/management/tasks.go:51-59 | the entity handed to the repository has an empty id and creation date and takes its project id from the author id |
| TaskService.UpdateTask | internal/service/management/tasks.go:48-68 | the repository's update of the mapped entity, with its result and error unchanged |
| TaskService.DeleteTask | internal/service/management/tasks.go:70-80 | the repository's delete, with its error unchanged |
| TaskService.ListTasks | internal/service/management/tasks.go:82-94 | every task as a response in scan order, or the failure unchanged |
| TaskService.SearchTasks | internal/service/management/tasks.go:96-114 | ErrSearch exactly when the value is empty or the filter check fails, without reading the store; otherwise the repository's error unchanged |
| TaskService.CreateThenGet | internal/service/management/tasks.go:10-46 | a validated create request reads back under the returned id with every request field |
| TaskService.DeleteThenGet | internal/service/management/tasks.go:70-80 | after a delete the task is not found |
| TaskService.UpdateIgnoresProjectId | internal/service/management/tasks.go:58 | the request's project id has no effect; an update with an author id writes it to both author_id and project_id |
| TaskService.ProjectIdAloneIsNoOp | internal/service/management/tasks.go:51-59 | an update supplying only a project id changes nothing and reports success |
| TaskService.UpdateKeepsIdentity | internal/service/management/tasks.go:51-59 | an update never changes which tasks exist, any id or creation date, or another table |
| TaskService.SearchTasksNeverSucceeds | internal/service/management/tasks.go:99-113 | every task search fails; one past the guard fails with a driver error |
| TaskService.ValidatedCreateDatesParse | internal/service/management/tasks.go:19-20 | both dates of a validated create request parse with the date layout |
| TaskService.ValidatedUpdateDatesParse | internal/service/management/tasks.go:56 | every date a validated update binds parses with the date layout |
| TaskService.CreateKeepsKeys | internal/service/management/tasks.go:13-25 | creating a task keeps every row stored under its own id |
| TaskService.UpdateKeepsKeys | internal/service/management/tasks.go:51-61 | updating a task keeps every row stored under its own id |
| TaskService.DeleteKeepsKeys | internal/service/management/tasks.go:73 | deleting a task keeps every remaining row stored under its own id |
| ProjectService.NewEntity | internal/service/management/project.go:13-20 | the stored project's response is the fresh id followed by every request field unchanged |
| ProjectService.CreateProject | internal/service/management/project.go:10-29 | the project is stored under the generated id, which is returned; the repository's error comes back unchanged |
| ProjectService.GetProject | internal/service/management/project.go:31-43 | the stored project as its response, or the repository's error unchanged |
| ProjectService.UpdateEntity | internal/service/management/project.go:48-53 | the entity handed to the repository has an empty id and start date |
| ProjectService.UpdateProject | internal/service/management/project.go:45-62 | the repository's update of the mapped entity, with its error unchanged |
| ProjectService.DeleteProject | internal/service/management/project.go:64-74 | the repository's delete, with its error unchanged |
| ProjectService.ListProjects | internal/service/management/project.go:76-88 | every project as a response in scan order; any failure becomes ErrNotFound |
| ProjectService.Wanted | internal/service/management/project.go:99 | every project a search looks for holds the value in the filtered column |
| ProjectService.SearchProjects | internal/service/management/project.go:90-108 | ErrSearch exactly when the value is empty or the key is not "title" or "manager"; otherwise, with no failure, a success exactly when some scanned project matches, holding the matching projects as responses, over a full scan every stored project holding the value once, ErrNotFound exactly when no stored project holds it, or the failure unchanged |
| ProjectService.CreateThenGet | internal/service/management/project.go:10-43 | a validated create request reads back under the returned id with every request field |
| ProjectService.DeleteThenGet | internal/service/management/project.go:64-74 | after a delete the project is not found |
| ProjectService.UpdateKeepsIdentity | internal/service/management/project.go:48-55 | an update never changes which projects exist, any id or start date, or another table |
| ProjectService.StoredMatchFound | internal/service/management/project.go:90-108 | over a full scan with no failure, a search past the guard succeeds and returns every stored project whose filtered column holds the value |
| ProjectService.GuardedSearchNamesColumn | internal/service/management/project.go:93-99 | a search past the guard always names a real column |
| ProjectService.SearchMatchesFilter | internal/service/management/project.go:99-105 | a successful search by "manager" returns only that manager's projects, by "title" only projects with that title |
| ProjectService.ValidatedCreateDatesParse | internal/service/management/project.go:18-19 | both dates of a validated create request parse with the date layout |
| ProjectService.ValidatedUpdateDatesParse | internal/service/management/project.go:52 | every date a validated update binds parses with the date layout |
| ProjectService.CreateKeepsKeys | internal/service/management/project.go:13-22 | creating a project keeps every row stored under its own id |
| ProjectService.UpdateKeepsKeys | internal/service/management/project.go:48-55 | updating a project keeps every row stored under its own id |
| ProjectService.DeleteKeepsKeys | internal/service/management/project.go:67 | deleting a project keeps every remaining row stored under its own id |
| UserService.NewEntity | internal/service/management/user.go:27-33 | the stored user's response is the fresh id followed by every request field unchanged |
| UserService.CreateUser | internal/service/management/user.go:24-42 | the user is stored under the generated id, which is returned; the repository's error comes back unchanged |
| UserService.GetUser | internal/service/management/user.go:44-56 | the stored user as its response; ErrNotFound for an unknown id; other errors unchanged |
| UserService.UpdateEntity | internal/service/management/user.go:61-65 | the entity handed to the repository has an empty id and registration date |
| UserService.UpdateUser | internal/service/management/user.go:58-74 | the repository's update of the mapped entity, with its error unchanged |
| UserService.DeleteUser | internal/service/management/user.go:76-86 | the repository's delete, with its error unchanged |
| UserService.ListUsers | internal/service/management/user.go:10-22 | every user as a response in scan order, or the failure unchanged |
| UserService.Wanted | internal/service/management/user.go:97 | every user a search looks for holds the value in the filtered column |
| UserService.SearchUsers | internal/service/management/user.go:88-106 | ErrSearch exactly when the value is empty or the key is empty; an unknown key is the server's syntax error; otherwise, with no failure, a success exactly when some scanned user matches, holding the matching users, over a full scan every stored user holding the value once, ErrNotFound exactly when no stored user holds it |
| UserService.CreateThenGet | internal/service/management/user.go:24-56 | a validated create request reads back under the returned id with every request field |
| UserService.DeleteThenGet | internal/service/management/user.go:76-86 | after a delete the user is not found |
| UserService.UpdateKeepsIdentity | internal/service/management/user.go:61-67 | an update never changes which users exist, any id or registration date |
| UserService.UpdateKeepsOtherTables | internal/service/management/user.go:67 | a user update leaves projects and tasks untouched |
| UserService.StoredMatchFound | internal/service/management/user.go:88-106 | over a full scan with no failure, a search past the guard on a key the repository knows succeeds and returns every stored user whose filtered column holds the value |
| UserService.UnknownKeyReachesServer | internal/service/management/user.go:91-97 | keys the guard lets through but the repository does not know, such as "registration_date", end in the server's syntax error |
| UserService.SearchByRole | internal/service/management/user.go:97-103 | a successful search by "role" returns only users holding that role |
| UserService.ValidatedCreateDatesParse | internal/service/management/user.go:31 | the registration date of a validated create request parses with the date layout |
| UserService.UpdateBindsNoDate | internal/service/management/user.go:61-65 | an update binds no date at all |
| UserService.CreateKeepsKeys | internal/service/management/user.go:27-35 | creating a user keeps every row stored under its own id |
| UserService.UpdateKeepsKeys | internal/service/management/user.go:61-67 | updating a user keeps every row stored under its own id |
| UserService.DeleteKeepsKeys | internal/service/management/user.go:79 | deleting a user keeps every remaining row stored under its own id |

## Left out

- HTTP handlers (internal/handler) are not part of this model: JSON decoding and encoding, routing, status codes, and the search dispatch that picks a key by iterating a Go map.
- The process and server lifecycle (internal/app/app.go, pkg/server/server.go) is not modelled: it is signals, a listener goroutine and a shutdown timeout.
- The connection setup and service wiring (internal/repository/postgres/postgres.go, internal/repository/repository.go, internal/service/management/service.go) are not modelled: they only wire dependencies. The repository interface files only declare signatures, which the modules' functions take the place of.
- `time.Parse` with the date layout and the email regular expression are foreign library behaviour. They are the `Parsers` parameter; the only fact assumed about them anywhere is that they reject the empty string (`Parsers.RejectsEmpty`, used by one lemma).
- `crypto/rand` is replaced by the twelve random bytes passed to `GenerateID`. The error `rand.Read` could return is ignored by the code, and so by the model.
- Logging has no behaviour to model.
- SQL text: `fmt.Sprintf` and `strings.Join` are not rendered. The SET list is kept as clauses (column, placeholder number) plus arguments, and the statement as `UpdateStatement`. The spacing difference (`title = $1` for projects, `name=$1` elsewhere) therefore does not appear.
- The database driver and server are modelled by what they do to the three maps:
  - a failure the data cannot explain (connection loss, cancellation, a constraint other than the primary key) is the input `fault`;
  - the row order of a SELECT without ORDER BY is the input `order`. What a list or search returns is tied to the stored table only when `order` visits every key once (`Sql.Lists`); for any other `order` the contracts speak of the rows it visits.
- The server's error precedence is assumed, not derived: in `ExecSelectWhere` a column it rejects while parsing (empty or unknown) is reported before any `fault`.
- The conversion of a scanned row into the destination struct is reduced to a check that every column has a field. The store keeps date text verbatim, and `OnlyDate.Scan` is assumed to give that text back. The server in fact re-formats a DATE as "YYYY-MM-DD". That text is the same for text the date layout accepts, which is why the `CreateThenGet` lemmas require a validated request. Unvalidated text the server also accepts, such as "2024-1-5", would read back re-formatted, and the model does not represent that.
- `OnlyDate.Value` panics on an unparsable date, but no path in the core calls it. The repositories bind `OnlyDate` by value and `Value` has a pointer receiver, so the driver sends the text as it is. The server parses the text itself, and its refusal is a driver error, the input `fault`. The model states the date's parseability as `OnlyDate.InLayout` and proves that validated requests only carry dates in the layout.
- UserRepository.Search: an unknown filter key leaves the column name empty. Following the code, the result is the server's syntax error passed through, not ErrNotFound. The same holds for the other two repositories.
- TaskRepository.Search: it is modelled as written, reading the `users` table. Every search past the guard therefore fails with a driver error, and its ErrNotFound branch is unreachable; the model proves this rather than correcting the table name.
- Go's distinction between a nil slice and an empty slice (validators return nil when there is no error; `ParseFromEntities` of an empty list is nil) is not modelled: both are the empty sequence.
- `ByteLen` measures the UTF-8 length of a sequence of Unicode scalar values. Strings that are not valid UTF-8, which Go allows, are not represented.
- Domain.HexDecode accepts upper-case digits as `encoding/hex` does. Only its use as the inverse of the encoder is proved; its own error messages are not modelled.
