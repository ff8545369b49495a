# todo-api core in Dafny

A model of the request-handling core of the todo-api backend: a small HTTP
service that keeps users and their to-do tasks in SQLite and authenticates
requests with a JWT in the `authorization` header.

The model covers:

- **the authorization gate** `valid_user` (`middleware.dfy`). It checks the
  header value, takes the token as the second space-separated piece and reads
  its claims without checking the signature. It refuses a token once `now` is
  a whole day or more past its `expires`. Times are integer seconds.
- **the views** (`views.dfy`). These are the records the handlers build and
  the projections that drop the password and turn the stored `completed`
  integer into a boolean.
- **the request helpers** (`utils.dfy`):
  - `get_request_info`, the path split into non-empty segments with the key
    "/" + first segment, or "//" when there is none;
  - `create_error` and `valid_json`;
  - `get_users`, a filter of the users table by email or id.
- **the join-row reassembly** of `list_all_users` and `list_by_id`
  (`row_assembly.dfy`, `join_query.dfy`). Each row of
  `users LEFT OUTER JOIN tasks` becomes a user with zero or one task. The
  grouping loop folds the rows into one entry per distinct user id, in
  first-seen order, with each user's tasks in row order.
- **the user and task handlers** (`users_controller.dfy`,
  `tasks_controller.dfy`).
  - Each handler is a module-level method that takes a `Connection`, a class
    holding the two tables as sequences; the handlers that write modify it.
    Only the SQL statements themselves are methods of `Connection`.
  - Each handler method is proved equal to a function giving the response
    and the new tables.
  - The handlers' promises are proved about those functions. These include
    the order of the checks, permission, partial updates, the 0/1 encoding of
    `completed`, and the absence of any owner check on tasks.
- **the dispatch table** of `routes` (`routes.dfy`).

Foreign calls are parameters of the handlers:

- bcrypt `hash`: a function of the password and the cost;
- bcrypt `verify`: a function to `Option<bool>`;
- uuid: a given fresh id;
- the JWT encoder: a function to `Option<string>`;
- the JWT claims decoder: a function from the token to its claims;
- the clock: an integer `now`;
- SQLite's answer to a write: the flag `executed`.

Points where the code is looser than its data model suggests:

- **Emails are not kept unique.** `create_user` refuses an email already in
  use (`UsersController.CreateUserKeepsEmailsUnique`). `update_user` writes a
  new email without that check, so two users can end up sharing an email
  (`UsersController.UpdateUserEmailUnchecked`). `login` then reads the first
  of them.
- **Claims that are not `JWTData` panic.** `from_value::<JWTData>(...).unwrap()`
  in src/middlewares/users.rs panics on them. The model excludes that case by
  the precondition `Middleware.Decodable`.
- **The token signature is never checked.** `valid_user` reads the claims of
  the token's payload without verifying it, so the model's decoder is a
  function of the token alone.

## Model

| member | source | states |
|---|---|---|
| Views.FormatUser | src/views/users.rs:13-20 | `CreatedUser::format`; characterised by `Views.FormatUserForgetsOnlyPassword`: two users have the same view exactly when they agree on all but the password |
| Views.FormatTask | src/views/tasks.rs:12-20 | `TaskCreated::format`; characterised by `Views.FormatTaskForgets` and `Views.FormatTaskOwnerFree`: id, name and the zero test of the flag, never the owner |
| Views.FormatTaskUser | src/views/tasks.rs:22-31 | `TaskCreated::format_user`; characterised by `Views.FormatTaskUserAgrees`: as `format`, plus the owner's public view |
| Views.FormatUserForgetsOnlyPassword | src/views/users.rs:13-20 | two users have the same public view exactly when they agree on id, names and email, whatever their passwords |
| Views.CompletedViewMeaning | src/views/tasks.rs:12-13 | the view flag is false exactly for a stored 0 |
| Views.FormatTaskForgets | src/views/tasks.rs:12-20 | two tasks have the same nested view exactly when id and name agree and both flags are zero or both non-zero |
| Views.FormatTaskOwnerFree | src/views/tasks.rs:42-47 | the nested task view does not depend on the task's owner |
| Views.FormatTaskUserAgrees | src/views/tasks.rs:22-31 | `format_user` agrees with `format` on id, name and flag, embeds the owner's public view, and does not depend on the owner's password |
| Views.CompletedFlag | src/controllers/tasks.rs:197-201 | the stored encoding of a boolean is 0 or 1 |
| Views.CompletedRoundTrip | src/controllers/tasks.rs:197-201 | storing the encoding of `b` and reading it back through the view gives `b` |
| Text.Split | src/middlewares/users.rs:36 | `str::split` always yields at least one piece |
| Text.JoinSplit | src/utils/mod.rs:31-32 | joining the pieces with the separator gives back the string |
| Text.SplitPiecesFree | src/utils/mod.rs:31-32 | no piece contains the separator |
| Text.SplitCount | src/middlewares/users.rs:36-37 | the number of pieces is the number of separators plus one |
| Text.ConcatSplit | src/utils/mod.rs:31-32 | the pieces laid end to end are the string with the separators deleted |
| Text.SplitNoSeparator | src/middlewares/users.rs:36-37 | a string without the separator splits into itself alone |
| Text.SplitAtFirst | src/utils/mod.rs:31-32 | the first piece ends at the first separator; the rest splits on its own |
| Utils.NonEmpty | src/utils/mod.rs:33 | the kept pieces are non-empty; a piece is kept iff it is non-empty; concatenation is unchanged |
| Utils.NonEmptyAppend | src/utils/mod.rs:33 | the filter distributes over concatenation, so kept pieces stay in their order |
| Utils.Segments | src/utils/mod.rs:31-35 | a segment is exactly a non-empty piece of the split on '/', and contains no '/' |
| Utils.GetRequestInfo | src/utils/mod.rs:27-51 | method and segments are passed on; the key starts with '/' and is at least two long; it is "//" exactly when there is no segment |
| Utils.SegmentsMeaning | src/utils/mod.rs:31-35 | segments are non-empty, contain no '/', are exactly the non-empty pieces of the split, and in order make up the path without its slashes |
| Utils.RequestInfoKey | src/utils/mod.rs:37-50 | the key is "//" iff there is no segment, and "/" + the first segment otherwise; method and segments are passed on |
| Utils.ErrorResponse | src/utils/mod.rs:53-71 | an error response always carries a non-empty error label |
| Utils.CreateError | src/utils/mod.rs:53-71 | the imperative `create_error` (reassigned label) builds exactly the error response |
| Utils.ErrorResponseDefaults | src/utils/mod.rs:57-63 | status is the given one or 400; the label is the reason iff the reason is non-empty, "Internal Server Error" otherwise |
| Utils.ValidJson | src/utils/mod.rs:78-90 | 200 iff serialisation succeeded, with the payload; otherwise the same response as `create_error("", None)` |
| Utils.Selected | src/utils/mod.rs:124-141 | a stored user is returned iff its email (or id) equals the value |
| Utils.SelectedAbsent | src/utils/mod.rs:124-148 | no stored user with the value: the lookup is empty |
| Utils.SelectedUnique | src/utils/mod.rs:124-148 | with the id as primary key, looking up a stored user's id yields that user alone |
| Utils.GetUsers | src/utils/mod.rs:117-149 | the push loop returns exactly the rows of the filtered table, in table order |
| Storage.UsersUpdated | src/controllers/users.rs:344-353 | the update keeps length and ids, replaces each row with the id by the new row, and keeps every other row |
| Storage.UsersUpdatedUnique | src/controllers/users.rs:344-353 | with distinct ids, updating the row at position k is `users[k := row]` |
| Storage.UsersDeleted | src/controllers/users.rs:388 | a row survives iff it was stored and its id differs |
| Storage.UsersDeletedAppend | src/controllers/users.rs:388 | the delete acts row by row: on a concatenation it is the concatenation of the deletes, so survivors keep their order and multiplicity |
| Storage.UsersDeletedAbsent | src/controllers/users.rs:387-396 | deleting an id no row has changes nothing |
| Storage.TasksUpdated | src/controllers/tasks.rs:203-206 | rows with the id get the new name and flag, keeping id and owner; other rows are kept |
| Storage.TasksDeleted | src/controllers/tasks.rs:268 | a task survives iff it was stored and its id differs |
| Storage.TasksDeletedAppend | src/controllers/tasks.rs:268 | the delete acts row by row: on a concatenation it is the concatenation of the deletes, so survivors keep their order and multiplicity |
| Storage.TasksDeletedAbsent | src/controllers/tasks.rs:264-268 | deleting a task id no row has changes nothing |
| Storage.Connection.InsertUser | src/controllers/users.rs:213-222 | appends the row to the users table; tasks untouched |
| Storage.Connection.UpdateUser | src/controllers/users.rs:344-353 | the users table becomes its update by the row; tasks untouched |
| Storage.Connection.DeleteUser | src/controllers/users.rs:388 | users with the id are removed; their tasks stay |
| Storage.Connection.InsertTask | src/controllers/tasks.rs:114-122 | appends the row to the tasks table; users untouched |
| Storage.Connection.UpdateTask | src/controllers/tasks.rs:203-206 | the tasks table becomes its update; users untouched |
| Storage.Connection.DeleteTask | src/controllers/tasks.rs:268 | tasks with the id are removed; users untouched |
| Middleware.NumDays | src/middlewares/users.rs:60 | whole days truncated toward zero, bounded on each side for either sign |
| Middleware.BearerToken | src/middlewares/users.rs:24-42 | every early refusal of the header is a 400 response |
| Middleware.ValidUser | src/middlewares/users.rs:23-75 | a response iff the header checks fail; an identity iff the token decodes to claims less than a day past expiry; the identity is the claims' id |
| Middleware.Authenticate | src/controllers/users.rs:295-307 | handlers continue iff `valid_user` gave an identity, with that identity; a response from `valid_user` is passed through unchanged; a token error becomes `create_error("", None)` |
| Middleware.ExpiredIff | src/middlewares/users.rs:54-62 | expired iff `now - expires >= 86400`; a future expiry or one less than a day old is accepted |
| Middleware.MissingHeader | src/middlewares/users.rs:68-73 | no header: "token is necessary" and no identity |
| Middleware.NonPrintableHeader | src/middlewares/users.rs:66 | a value `to_str` refuses: 400 "Internal Server Error" |
| Middleware.MalformedHeader | src/middlewares/users.rs:29-42 | shorter than two characters or without a space: "token is necessary", whatever the decoder says |
| Middleware.WellFormedHeader | src/middlewares/users.rs:29-44 | two characters or more with a space always reach the decoder |
| Middleware.TokenIsSecondPiece | src/middlewares/users.rs:36-44 | the token is exactly the text between the first and second space; further pieces are ignored |
| Middleware.Decision | src/middlewares/users.rs:44-64 | past the header checks, the decision depends only on the claims and the clock |
| RowAssembly.RowToUser | src/controllers/users.rs:61-87 | a user iff the four user columns read; at most one task, and one iff the three task columns read |
| RowAssembly.RowUsers | src/controllers/users.rs:60-88 | the mapped rows, one per row, each the row closure's user |
| RowAssembly.Position | src/controllers/users.rs:94 | the first index with the id, or none when no entry has it |
| RowAssembly.Absorb | src/controllers/users.rs:94-103 | one step of the row loop; characterised by `RowAssembly.AbsorbNew` and `RowAssembly.AbsorbKnown`: a new id is pushed, a known id's entry gets the row's tasks, and the grouping invariant is kept |
| RowAssembly.Grouped | src/controllers/users.rs:90-105 | the row loop as a fold; characterised by `RowAssembly.GroupedSpec` |
| RowAssembly.AbsorbNew | src/controllers/users.rs:96-97 | pushing a row with a new id keeps the grouping invariant for the longer row stream |
| RowAssembly.AbsorbKnown | src/controllers/users.rs:98-103 | appending a known id's tasks to its entry keeps the grouping invariant for the longer row stream |
| RowAssembly.GroupedSpec | src/controllers/users.rs:90-105 | distinct ids; every row's id has an entry; each entry is the first row with its id carrying that id's tasks in row order; entries in first-seen order |
| RowAssembly.GroupedCount | src/controllers/users.rs:90-105 | the entry count is the number of distinct user ids among the rows |
| RowAssembly.GroupedEmpty | src/controllers/users.rs:161-180 | no entry exactly when there is no row |
| RowAssembly.GroupedTotal | src/controllers/users.rs:99-103 | the fold neither loses nor duplicates a task |
| RowAssembly.RowUsersTasks | src/controllers/users.rs:62-77 | the mapped rows carry one task per row whose three task columns read |
| RowAssembly.GroupedTaskCount | src/controllers/users.rs:62-105 | the tasks across all entries number the rows with all three task columns |
| RowAssembly.GroupRows | src/controllers/users.rs:90-105 | the loop with `position`, `push` and the inner task loop computes the fold |
| JoinQuery.OwnedBy | src/controllers/users.rs:59 | a task is joined to a user iff its `user_id` is the user's id |
| JoinQuery.LeftJoin | src/controllers/users.rs:59 | every user column of every join row reads; at least as many rows as users |
| JoinQuery.LeftJoinKeepsUsers | src/controllers/users.rs:59 | every stored user has a join row carrying its id, with or without a task |
| JoinQuery.GroupedBlock | src/controllers/users.rs:90-105 | the rows of a new id add one entry: the first row with all the rows' tasks |
| JoinQuery.UserBlock | src/controllers/users.rs:61-87 | a user's rows map to entries of its id whose first entry and gathered tasks are the user's listing |
| JoinQuery.ListAll | src/controllers/users.rs:56-110 | with distinct ids, the grouped join is every stored user once, in table order, with exactly its own tasks in table order |
| UsersController.ListAllUsers | src/controllers/users.rs:56-110 | 200 with the grouped join; with distinct ids, every stored user with its own tasks |
| UsersController.ListByIdOutcome | src/controllers/users.rs:112-190 | a token error is returned as is; another identity gets 401 "you not have permission for to follow" |
| UsersController.ListById | src/controllers/users.rs:112-190 | the handler's steps give the outcome function |
| UsersController.ListByIdFound | src/controllers/users.rs:161-184 | for the owner: 200 iff a stored user has the id, "this user is not exists" otherwise |
| UsersController.ListByIdEntry | src/controllers/users.rs:128-184 | with distinct ids the owner reads its columns without the password and exactly its own tasks |
| UsersController.CreateUserOutcome | src/controllers/users.rs:192-234 | 201 iff the body parses, the email is unused and the insert succeeds; then exactly one row with the new id and the cost-7 hash is appended; otherwise no change; an unparsed body is "data invalid", a used email "this email already in use", a failed insert `create_error("", None)` |
| UsersController.CreateUser | src/controllers/users.rs:192-234 | the handler's response and new tables are the outcome function's |
| UsersController.CreateUserKeepsEmailsUnique | src/controllers/users.rs:205-222 | registration keeps stored emails distinct |
| UsersController.LoginOutcome | src/controllers/users.rs:236-285 | 200 only for a stored user with that email whose password verifies, with its id and the token encoded for an hour from now; an unknown email is "this user not exists" |
| UsersController.SelectedByEmail | src/controllers/users.rs:244 | with emails unique, the email query yields the stored user with that email alone |
| UsersController.LoginSucceeds | src/controllers/users.rs:244-275 | with emails unique, a stored user whose password verifies gets 200 with its id and the token encoded for an hour from now; a failing encoder gives the generic 400 |
| UsersController.LoginRefused | src/controllers/users.rs:250-279 | a password the first stored user's hash refuses is "password is not valid"; one bcrypt cannot check is the generic 400 |
| UsersController.LoginWrongPassword | src/controllers/users.rs:250-256 | with emails unique, a wrong password for a stored user is "password is not valid" |
| UsersController.Login | src/controllers/users.rs:236-285 | the handler's response is the outcome function's |
| UsersController.LoginThenValidate | src/controllers/users.rs:258-266 | a login token sent back as "Bearer <token>" is accepted with its id until one hour plus one day after issue, and refused as expired from then on |
| UsersController.MergedUserFields | src/controllers/users.rs:325-341 | the id is kept; absent fields keep the stored value; present ones take the body's value, the password hashed at cost 8 |
| UsersController.MergedUserLastWins | src/controllers/users.rs:325-341 | sending the same update twice stores what the second one alone stores, the password being whatever that call's salted hash gives; without a password the update is idempotent; an update with no field is the identity |
| UsersController.MergedUser | src/controllers/users.rs:325-341 | the field merge of `update_user`; characterised by `UsersController.MergedUserFields` and `UsersController.MergedUserLastWins` |
| UsersController.UpdateUserOutcome | src/controllers/users.rs:287-365 | 200 iff the owner sends a body with a field for a stored user and the write succeeds; otherwise no change; tasks never change; a body that does not parse is "data invalid"; a failed write is "error on update user" |
| UsersController.UpdateUser | src/controllers/users.rs:287-365 | the handler, merging field by field, gives the outcome function's response and tables |
| UsersController.UpdateUserPermission | src/controllers/users.rs:300-302 | another identity gets 401 before any lookup, and nothing changes |
| UsersController.UpdateUserCheckOrder | src/controllers/users.rs:316-323 | an unknown id is reported before an empty body is; an empty body for a stored user is "data invalid" and writes nothing |
| UsersController.UpdateUserWrites | src/controllers/users.rs:325-353 | with distinct ids, a success rewrites that user's row to the merge and keeps every other row |
| UsersController.UpdateUserEmailUnchecked | src/controllers/users.rs:309-353 | an update may give a user another user's email, leaving two users with the same email |
| UsersController.DeleteUserOutcome | src/controllers/users.rs:367-397 | 200 iff the owner asks and the delete succeeds, removing exactly the rows with that id; a token error is passed through; 401 for another identity; a failed delete is "error on delete this user"; tasks never change |
| UsersController.DeleteUser | src/controllers/users.rs:367-397 | the handler gives the outcome function's response and tables |
| UsersController.DeleteUserAbsent | src/controllers/users.rs:387-396 | deleting an id no user has answers 200 and changes nothing |
| TasksController.CheckUser | src/controllers/tasks.rs:37-51 | continue iff the token gives an identity a stored user has; otherwise the token's response or "this user not exists" |
| TasksController.CheckStoredUser | src/controllers/tasks.rs:37-51 | the handlers' lookup by id gives the check |
| TasksController.TaskUserJoin | src/controllers/tasks.rs:55-71 | one row per owned task and owner, each carrying its owner |
| TasksController.ListTasksOutcome | src/controllers/tasks.rs:28-82 | the check's error, or 200 with a task list |
| TasksController.ListTasks | src/controllers/tasks.rs:28-82 | the push loop over the join rows gives the outcome function |
| TasksController.TaskUserJoinSingle | src/controllers/tasks.rs:55-71 | with one owner, each owned task is read once, with that owner |
| TasksController.ListTasksOwn | src/controllers/tasks.rs:55-81 | with distinct ids, a user sees exactly its own tasks in table order, each with its public view as owner |
| TasksController.CreateTaskOutcome | src/controllers/tasks.rs:84-134 | 201 iff the check passes, the body parses and the insert succeeds; then exactly the row (new id, name, 0, the token's identity) is appended; otherwise no change; a failed insert is "not is possible create this task" |
| TasksController.CreateTask | src/controllers/tasks.rs:84-134 | the handler gives the outcome function's response and tables |
| TasksController.CreatedTaskListed | src/controllers/tasks.rs:114-122 | a created task is the last of its creator's tasks, not completed |
| TasksController.Found | src/controllers/tasks.rs:164-176 | the lookup is empty iff no task has the id, and holds exactly the stored tasks with it |
| TasksController.FindTasks | src/controllers/tasks.rs:178-181 | the push loop returns the lookup |
| TasksController.FoundUnique | src/controllers/tasks.rs:164-181 | with distinct task ids, the lookup reads back that one task |
| TasksController.MergedTaskFields | src/controllers/tasks.rs:187-201 | id and owner kept; an absent name kept; Some(true) stored as 1, Some(false) as 0, None keeps the flag |
| TasksController.MergedTask | src/controllers/tasks.rs:187-201 | the field merge of `update_task`; characterised by `TasksController.MergedTaskFields` |
| TasksController.UpdateTaskOutcome | src/controllers/tasks.rs:136-218 | 200 iff the check passes, the body has a field, the task exists and the write succeeds; otherwise no change; users never change; a body that does not parse is "data invalid"; a failed write is "error on update this task" |
| TasksController.NoHeaderRefused | src/middlewares/users.rs:68-73 | without an `authorization` header every task handler answers 400 "token is necessary" and writes nothing |
| TasksController.UpdateTask | src/controllers/tasks.rs:136-218 | the handler, merging field by field, gives the outcome function's response and tables |
| TasksController.UpdateTaskCheckOrder | src/controllers/tasks.rs:183-191 | "this task not exists" comes before the empty-body check; an empty body is "data invalid" and writes nothing |
| TasksController.UpdateTaskWrites | src/controllers/tasks.rs:187-206 | with distinct task ids, a success rewrites that row to the merge, keeping id and owner, and keeps every other row |
| TasksController.UpdateTaskIgnoresOwner | src/controllers/tasks.rs:146-158 | any stored user may update a task owned by someone else |
| TasksController.DeleteTaskOutcome | src/controllers/tasks.rs:220-277 | 200 iff the check passes, the task exists and the delete succeeds, removing exactly the rows with that id; a failed user check returns its response; an absent task is "this task not exists"; a failed delete is "error on delete this task"; otherwise nothing is deleted |
| TasksController.DeleteTask | src/controllers/tasks.rs:220-277 | the handler gives the outcome function's response and tables |
| TasksController.DeleteTaskIgnoresOwner | src/controllers/tasks.rs:229-241 | any stored user may delete a task owned by someone else |
| Routes.Route | src/main.rs:59-82 | every fall-through answers `create_error("this router is not exists", None)` |
| Routes.Dispatch | src/main.rs:59-82 | `routes` from the raw method and path; characterised by `Routes.DispatchUser` and `Routes.DispatchTask` |
| Routes.IdIsSecondSegment | src/main.rs:61-79 | an id route needs a second segment and passes it as the id; only the `/user` and `/task` keys take ids |
| Routes.RouteTable | src/main.rs:59-80 | the handler for each method and key of the table |
| Routes.FallthroughIff | src/main.rs:59-81 | a request gets 400 "this router is not exists" exactly when its method, key and id segment are none of the table's ten entries (so `DELETE /users`, `GET /register`, `GET /task/<id>` fall through) |
| Routes.Fallthrough | src/main.rs:61-81 | `/user` or `/task` without an id, a key outside the table, or a method other than GET, POST, PUT and DELETE falls through to 400 "this router is not exists" |
| Routes.ExtraSegmentsIgnored | src/main.rs:61-79 | segments after the second do not change the route |
| Routes.KeyPath | src/utils/mod.rs:31-44 | "/key" has the single segment key |
| Routes.KeyIdPath | src/utils/mod.rs:31-44 | "/key/id/rest" has segments key, id, then rest's |
| Routes.DispatchTask | src/main.rs:75-80 | PUT and DELETE "/task/<id>" reach the task handlers with that id; PUT "/task" falls through |
| Routes.DispatchUser | src/main.rs:60-71 | GET, PUT and DELETE "/user/<id>" reach the user handlers with that id; GET "/users" lists all |

## Left out

- The hyper server, `async`/`await`, the `Mutex` around the connection and
  the `lazy_static` global are not modelled. Handlers run one at a time on
  the tables, so the race between the email check and the insert in
  `create_user` is not modelled either.
- rusqlite is not modelled. The tables are sequences of records, and the
  success of a write is the parameter `executed`.
- The panics of `prepare(...).unwrap()` are not modelled.
- Row order. None of the queries has an ORDER BY, and SQLite promises no
  order for any of them. The model fixes one order:
  - `JoinQuery.LeftJoin`, the LEFT OUTER JOIN of users and tasks, gives users
    in table order and each user's tasks in table order. The grouping
    properties (`RowAssembly.GroupedSpec` and the counts) are proved for any
    row order. `JoinQuery.ListAll` uses this order, and so do
    `UsersController.ListAllUsers` and `UsersController.ListByIdEntry`
    through it.
  - `TasksController.TaskUserJoin`, the tasks LEFT OUTER JOIN users of
    `list_tasks`, gives the owner's tasks in table order; so does
    `TasksController.ListTasksOwn`.
  - `Utils.Selected`, `Utils.GetUsers` and `TasksController.Found` return
    the rows a WHERE clause keeps in table order.
  - `UsersController.LoginRefused` is stated about the first user the email
    query returns in that order. With unique emails (`LoginSucceeds`,
    `LoginWrongPassword`) the order does not matter.
- `list_tasks`' join rows always read all columns, since `WHERE users.id = ?`
  leaves no NULL owner. Its `unwrap` is not modelled.
- src/database/mod.rs is not part of this model: it opens the file and
  creates the tables, with no logic beyond a constant lookup.
- bcrypt, uuid and jsonwebtokens are parameters.
  - `hash(..).unwrap()` is a given function of password and cost. bcrypt
    draws a random salt on every call, so that function stands for the
    result of one call, not a function of the password. Lemmas that hash
    twice take one function per call (`UsersController.MergedUserLastWins`).
  - The JWT decoding (`split_token`, `decode_json_token_slice`, `from_value`
    and the date parse) is one given function from token to claims.
- Middleware.ValidUser: the two `unwrap`s (claims that are not `JWTData`, and
  an unparsable `expires`) are the precondition `Decodable`, not modelled
  panics.
- chrono is not modelled: times are integer seconds. Login writes `expires`
  in local time and the validator parses it as UTC; that offset is not
  modelled.
- `parse_body` and serde are not modelled. A body is `Some` of the request
  record or `None` when it does not parse, and the `panic!` on a failed body
  stream is not modelled.
- Handlers serialise their views with `serde_json::to_string`, which cannot
  fail for these plain records. Handlers therefore pass `Ok` to `valid_json`,
  and only `Utils.ValidJson` covers the error case.
- Utils.ErrorResponse: the 500 fallback when `{"error": label}` fails to
  serialise is not modelled, since a struct of one string always serialises.
- Middleware.BearerToken: the length check counts characters. Rust's
  `len()` counts bytes, but a value `to_str` accepts is visible ASCII, so the
  two agree.
- Utils.GetUsers: the `query_type` string is the two-valued `QueryType`. An
  unknown type would make `prepare` panic on empty SQL, and no handler passes
  one.
- The `u16` status and the `i32` `completed` are unbounded integers. The
  values used (0/1 and the stored flag) are in range, so no wrap-around
  arises.
- The properties of the listing, `list_by_id`, `list_tasks` and the
  row-level updates assume distinct ids (`UniqueUserIds`, `UniqueTaskIds`).
  This is the tables' primary key, which SQLite enforces outside the model.
  They are stated as hypotheses of those lemmas.
