/** The task handlers (src/controllers/tasks.rs). As for the user handlers,
    each handler is a method that takes the connection, specified by a
    function of the request and the stored tables. Every handler first
    checks that the token's identity is a stored user; update and delete
    then act on any task, whoever owns it. */
module TasksController {
  import opened Wrappers
  import opened Views
  import opened Storage
  import opened Utils
  import opened Middleware
  import opened JoinQuery

  datatype RequestBodyCreate = RequestBodyCreate(name: string)

  datatype RequestBodyUpdate = RequestBodyUpdate(name: Option<string>, completed: Option<bool>)

  /** The check that opens every task handler: a valid token whose
      identity a stored user has. */
  function CheckUser(ctx: AuthContext, users: seq<CreatedUser>): (r: Result<string, Response>)
    requires Decodable(ctx)
    ensures r.Ok? <==> Authenticate(ctx).Ok? && exists u :: u in users && u.id == Authenticate(ctx).value
    ensures r.Ok? ==> r.value == Authenticate(ctx).value
    ensures Authenticate(ctx).Err? ==> r == Err(Authenticate(ctx).error)
    ensures Authenticate(ctx).Ok? && (forall u :: u in users ==> u.id != Authenticate(ctx).value) ==>
      r == Err(ErrorResponse("this user not exists", None))
  {
    match Authenticate(ctx)
    case Err(response) => Err(response)
    case Ok(id) =>
      var found := Selected(users, ById, id);
      if |found| < 1 then
        assert forall u :: u in users ==> u.id != id;
        Err(ErrorResponse("this user not exists", None))
      else
        assert found[0] in found;
        Ok(id)
  }

  /** The same check, as the handlers run it: `get_users` by id. */
  method CheckStoredUser(ctx: AuthContext, conn: Connection) returns (r: Result<string, Response>)
    requires Decodable(ctx)
    ensures r == CheckUser(ctx, conn.users)
  {
    var auth := Authenticate(ctx);
    if auth.Err? {
      return Err(auth.error);
    }
    var users := GetUsers(conn, auth.value, ById);
    if |users| < 1 {
      var response := CreateError("this user not exists", None);
      return Err(response);
    }
    return Ok(auth.value);
  }

  /* ---------------------------------------------------------------- */
  /* list_tasks                                                       */

  /** The rows of `tasks LEFT OUTER JOIN users ON users.id = tasks.user_id
      WHERE users.id = ?`: each task the user owns, in table order, joined
      with each stored user with that id. */
  function TaskUserJoin(owned: seq<TaskRow>, owners: seq<CreatedUser>): (rows: seq<TaskCreated>)
    ensures |rows| == |owned| * |owners|
    ensures forall i :: 0 <= i < |rows| ==> rows[i].user.Some?
  {
    if owned == [] then []
    else
      var t := owned[|owned| - 1];
      TaskUserJoin(owned[..|owned| - 1], owners) +
        seq(|owners|, j requires 0 <= j < |owners| => TaskCreated(t.id, t.name, t.completed, Some(owners[j])))
  }

  function TaskViews(rows: seq<TaskCreated>): (views: seq<TaskCreatedFormated>)
    requires forall i :: 0 <= i < |rows| ==> rows[i].user.Some?
  {
    seq(|rows|, i requires 0 <= i < |rows| => FormatTaskUser(rows[i]))
  }

  function ListTasksOutcome(ctx: AuthContext, users: seq<CreatedUser>, tasks: seq<TaskRow>): (r: Response)
    requires Decodable(ctx)
    ensures CheckUser(ctx, users).Err? ==> r == CheckUser(ctx, users).error
    ensures CheckUser(ctx, users).Ok? ==> r.status == 200 && r.body.Payload? && r.body.json.TasksJson?
  {
    match CheckUser(ctx, users)
    case Err(response) => response
    case Ok(id) => ValidJson(Ok(TasksJson(TaskViews(TaskUserJoin(OwnedBy(tasks, id), Selected(users, ById, id))))))
  }

  /** `list_tasks`: the join rows are formatted one by one, with the owner. */
  method ListTasks(ctx: AuthContext, conn: Connection) returns (r: Response)
    requires Decodable(ctx)
    ensures r == ListTasksOutcome(ctx, conn.users, conn.tasks)
  {
    var check := CheckStoredUser(ctx, conn);
    if check.Err? {
      return check.error;
    }
    var userId := check.value;
    var data := TaskUserJoin(OwnedBy(conn.tasks, userId), Selected(conn.users, ById, userId));
    var views: seq<TaskCreatedFormated> := [];
    var i := 0;
    while i < |data|
      invariant 0 <= i <= |data|
      invariant views == TaskViews(data[..i])
    {
      views := views + [FormatTaskUser(data[i])];
      i := i + 1;
    }
    assert data[..i] == data;
    r := ValidJson(Ok(TasksJson(views)));
  }

  /** A task the user owns, as `list_tasks` shows it. */
  function OwnTaskView(t: TaskRow, u: CreatedUser): TaskCreatedFormated
  {
    TaskCreatedFormated(t.id, t.name, CompletedView(t.completed), FormatUser(u))
  }

  /** Each owned task read with its one owner. */
  function WithOwner(owned: seq<TaskRow>, u: CreatedUser): seq<TaskCreated>
  {
    seq(|owned|, i requires 0 <= i < |owned| => TaskCreated(owned[i].id, owned[i].name, owned[i].completed, Some(u)))
  }

  lemma {:induction false} TaskUserJoinSingle(owned: seq<TaskRow>, u: CreatedUser)
    ensures TaskUserJoin(owned, [u]) == WithOwner(owned, u)
  {
    if owned != [] {
      var pre, t := owned[..|owned| - 1], owned[|owned| - 1];
      TaskUserJoinSingle(pre, u);
      var one := seq(1, j requires 0 <= j < 1 => TaskCreated(t.id, t.name, t.completed, Some([u][j])));
      assert one == [TaskCreated(t.id, t.name, t.completed, Some(u))];
      assert WithOwner(owned, u) == WithOwner(pre, u) + one;
    }
  }

  /** With distinct user ids, a stored user sees exactly the tasks it owns,
      in table order, each once and with its own public view as owner. */
  lemma ListTasksOwn(ctx: AuthContext, users: seq<CreatedUser>, tasks: seq<TaskRow>, u: CreatedUser)
    requires Decodable(ctx) && Authenticate(ctx) == Ok(u.id)
    requires UniqueUserIds(users) && u in users
    ensures var owned := OwnedBy(tasks, u.id);
      ListTasksOutcome(ctx, users, tasks) ==
      Response(200, Payload(TasksJson(seq(|owned|, i requires 0 <= i < |owned| => OwnTaskView(owned[i], u)))))
  {
    SelectedUnique(users, u);
    TaskUserJoinSingle(OwnedBy(tasks, u.id), u);
    var owned := OwnedBy(tasks, u.id);
    assert TaskViews(WithOwner(owned, u)) == seq(|owned|, i requires 0 <= i < |owned| => OwnTaskView(owned[i], u));
  }

  /* ---------------------------------------------------------------- */
  /* create_task                                                      */

  /** `create_task`: a new row with a fresh id, the body's name, the flag
      0 and the token's identity as owner. */
  function CreateTaskOutcome(ctx: AuthContext, users: seq<CreatedUser>, tasks: seq<TaskRow>,
                             body: Option<RequestBodyCreate>, newId: string, executed: bool): (o: Outcome)
    requires Decodable(ctx)
    ensures o.users == users
    ensures o.response.status == 201 <==> CheckUser(ctx, users).Ok? && body.Some? && executed
    ensures o.response.status == 201 ==>
      o.tasks == tasks + [TaskRow(newId, body.value.name, 0, Authenticate(ctx).value)]
    ensures o.response.status != 201 ==> o.tasks == tasks
    ensures CheckUser(ctx, users).Err? ==> o.response == CheckUser(ctx, users).error
    ensures CheckUser(ctx, users).Ok? && body.None? ==> o.response == ErrorResponse("data invalid", None)
    ensures CheckUser(ctx, users).Ok? && body.Some? && !executed ==>
      o.response == ErrorResponse("not is possible create this task", None)
  {
    match CheckUser(ctx, users)
    case Err(response) => Outcome(response, users, tasks)
    case Ok(userId) =>
      match body
      case None => Outcome(ErrorResponse("data invalid", None), users, tasks)
      case Some(RequestBodyCreate(name)) =>
        if executed then Outcome(Response(201, Empty), users, tasks + [TaskRow(newId, name, 0, userId)])
        else Outcome(ErrorResponse("not is possible create this task", None), users, tasks)
  }

  method CreateTask(ctx: AuthContext, conn: Connection, body: Option<RequestBodyCreate>, newId: string,
                    executed: bool) returns (r: Response)
    requires Decodable(ctx)
    modifies conn
    ensures Outcome(r, conn.users, conn.tasks) ==
      CreateTaskOutcome(ctx, old(conn.users), old(conn.tasks), body, newId, executed)
  {
    var check := CheckStoredUser(ctx, conn);
    if check.Err? {
      return check.error;
    }
    var userId := check.value;
    if body.None? {
      r := CreateError("data invalid", None);
      return;
    }
    if executed {
      conn.InsertTask(TaskRow(newId, body.value.name, 0, userId));
      r := Response(201, Empty);
    } else {
      r := CreateError("not is possible create this task", None);
    }
  }

  /** A created task shows up, unfinished, in its creator's list. */
  lemma CreatedTaskListed(ctx: AuthContext, users: seq<CreatedUser>, tasks: seq<TaskRow>,
                          body: RequestBodyCreate, newId: string)
    requires Decodable(ctx)
    requires CreateTaskOutcome(ctx, users, tasks, Some(body), newId, true).response.status == 201
    ensures var o := CreateTaskOutcome(ctx, users, tasks, Some(body), newId, true);
      var owned := OwnedBy(o.tasks, Authenticate(ctx).value);
      owned == OwnedBy(tasks, Authenticate(ctx).value) + [TaskRow(newId, body.name, 0, Authenticate(ctx).value)] &&
      !CompletedView(owned[|owned| - 1].completed)
  {
    var o := CreateTaskOutcome(ctx, users, tasks, Some(body), newId, true);
    assert o.tasks[..|o.tasks| - 1] == tasks;
  }

  /* ---------------------------------------------------------------- */
  /* the lookup of update_task and delete_task                         */

  /** The task as `SELECT * FROM tasks WHERE tasks.id = ?` reads it back. */
  function Read(t: TaskRow): TaskCreated
  {
    TaskCreated(t.id, t.name, t.completed, None)
  }

  /** The rows with that id, in table order, read back. */
  function Found(tasks: seq<TaskRow>, id: string): (r: seq<TaskCreated>)
    ensures r == [] <==> forall t :: t in tasks ==> t.id != id
    ensures forall x :: x in r <==> exists t :: t in tasks && t.id == id && x == Read(t)
  {
    if tasks == [] then []
    else
      var last := tasks[|tasks| - 1];
      var pre := Found(tasks[..|tasks| - 1], id);
      assert forall t :: t in tasks <==> t in tasks[..|tasks| - 1] || t == last;
      pre + (if last.id == id then [Read(last)] else [])
  }

  /** The loop that pushes every row of the lookup. */
  method FindTasks(conn: Connection, taskId: string) returns (found: seq<TaskCreated>)
    ensures found == Found(conn.tasks, taskId)
  {
    var rows := conn.tasks;
    found := [];
    var i := 0;
    while i < |rows|
      invariant 0 <= i <= |rows|
      invariant found == Found(rows[..i], taskId)
    {
      assert rows[..i + 1][..i] == rows[..i];
      if rows[i].id == taskId {
        found := found + [Read(rows[i])];
      }
      i := i + 1;
    }
    assert rows[..i] == rows;
  }

  /** With the id as primary key, the lookup reads back exactly that row. */
  lemma {:induction false} FoundUnique(tasks: seq<TaskRow>, k: nat)
    requires UniqueTaskIds(tasks) && k < |tasks|
    ensures Found(tasks, tasks[k].id) == [Read(tasks[k])]
  {
    var pre, last := tasks[..|tasks| - 1], tasks[|tasks| - 1];
    if k == |tasks| - 1 {
      assert forall t :: t in pre ==> t.id != last.id by {
        forall t | t in pre
          ensures t.id != last.id
        {
          var i :| 0 <= i < |pre| && pre[i] == t;
          assert tasks[i] == t;
        }
      }
    } else {
      assert tasks[k] == pre[k];
      assert UniqueTaskIds(pre);
      FoundUnique(pre, k);
    }
  }

  /* ---------------------------------------------------------------- */
  /* update_task                                                      */

  /** The fields present overwrite the task read back; `completed` is
      stored as 1 or 0. */
  function MergedTask(t: TaskCreated, b: RequestBodyUpdate): TaskCreated
  {
    t.(name := if b.name.Some? then b.name.value else t.name,
       completed := if b.completed.Some? then CompletedFlag(b.completed.value) else t.completed)
  }

  /** The id never changes; an absent name keeps the stored one;
      `Some(true)` is stored as 1, `Some(false)` as 0, `None` keeps the flag. */
  lemma MergedTaskFields(t: TaskCreated, b: RequestBodyUpdate)
    ensures var m := MergedTask(t, b);
      m.id == t.id && m.user == t.user &&
      (b.name.Some? ==> m.name == b.name.value) && (b.name.None? ==> m.name == t.name) &&
      (b.completed == Some(true) ==> m.completed == 1) &&
      (b.completed == Some(false) ==> m.completed == 0) &&
      (b.completed.None? ==> m.completed == t.completed) &&
      (b.completed.Some? ==> CompletedView(m.completed) == b.completed.value)
  {
  }

  /** `update_task`, in the order the handler checks: the stored user, the
      body, the task, at least one field; no check of the task's owner. */
  function UpdateTaskOutcome(ctx: AuthContext, users: seq<CreatedUser>, tasks: seq<TaskRow>, taskId: string,
                             body: Option<RequestBodyUpdate>, executed: bool): (o: Outcome)
    requires Decodable(ctx)
    ensures o.users == users
    ensures o.response.status != 200 ==> o.tasks == tasks
    ensures o.response.status == 200 <==>
      CheckUser(ctx, users).Ok? && body.Some? && (exists t :: t in tasks && t.id == taskId) &&
      (body.value.name.Some? || body.value.completed.Some?) && executed
    ensures CheckUser(ctx, users).Err? ==> o.response == CheckUser(ctx, users).error
    ensures CheckUser(ctx, users).Ok? && body.None? ==> o.response == ErrorResponse("data invalid", None)
    ensures (CheckUser(ctx, users).Ok? && body.Some? && (exists t :: t in tasks && t.id == taskId) &&
             (body.value.name.Some? || body.value.completed.Some?) && !executed) ==>
      o.response == ErrorResponse("error on update this task", None)
  {
    match CheckUser(ctx, users)
    case Err(response) => Outcome(response, users, tasks)
    case Ok(_) =>
      match body
      case None => Outcome(ErrorResponse("data invalid", None), users, tasks)
      case Some(b) =>
        var found := Found(tasks, taskId);
        if |found| < 1 then Outcome(ErrorResponse("this task not exists", None), users, tasks)
        else if b.name.None? && b.completed.None? then Outcome(ErrorResponse("data invalid", None), users, tasks)
        else
          var task := MergedTask(found[0], b);
          if executed then Outcome(Response(200, Empty), users, TasksUpdated(tasks, task.id, task.name, task.completed))
          else Outcome(ErrorResponse("error on update this task", None), users, tasks)
  }

  method UpdateTask(ctx: AuthContext, conn: Connection, taskId: string, body: Option<RequestBodyUpdate>,
                    executed: bool) returns (r: Response)
    requires Decodable(ctx)
    modifies conn
    ensures Outcome(r, conn.users, conn.tasks) ==
      UpdateTaskOutcome(ctx, old(conn.users), old(conn.tasks), taskId, body, executed)
  {
    var check := CheckStoredUser(ctx, conn);
    if check.Err? {
      return check.error;
    }
    if body.None? {
      r := CreateError("data invalid", None);
      return;
    }
    var RequestBodyUpdate(name, completed) := body.value;
    var tasks := FindTasks(conn, taskId);
    if |tasks| < 1 {
      r := CreateError("this task not exists", None);
      return;
    }
    var task := tasks[0];
    if name == None && completed == None {
      r := CreateError("data invalid", None);
      return;
    }
    if name != None {
      task := task.(name := name.value);
    }
    if completed != None {
      var completedFormated := if completed.value then 1 else 0;
      task := task.(completed := completedFormated);
    }
    if executed {
      conn.UpdateTask(task.id, task.name, task.completed);
      r := Response(200, Empty);
    } else {
      r := CreateError("error on update this task", None);
    }
  }

  /** "this task not exists" is checked before the empty update, and a
      body with neither field is "data invalid" and writes nothing. */
  lemma UpdateTaskCheckOrder(ctx: AuthContext, users: seq<CreatedUser>, tasks: seq<TaskRow>, taskId: string,
                             b: RequestBodyUpdate, executed: bool)
    requires Decodable(ctx) && CheckUser(ctx, users).Ok?
    ensures (forall t :: t in tasks ==> t.id != taskId) ==>
      UpdateTaskOutcome(ctx, users, tasks, taskId, Some(b), executed) ==
      Outcome(ErrorResponse("this task not exists", None), users, tasks)
    ensures (exists t :: t in tasks && t.id == taskId) && b.name.None? && b.completed.None? ==>
      UpdateTaskOutcome(ctx, users, tasks, taskId, Some(b), executed) ==
      Outcome(ErrorResponse("data invalid", None), users, tasks)
  {
  }

  /** With distinct task ids, a successful update rewrites that one row:
      its id and owner stay, the body's fields are stored (the flag as 1
      or 0) and absent ones keep their values; every other row is kept. */
  lemma UpdateTaskWrites(ctx: AuthContext, users: seq<CreatedUser>, tasks: seq<TaskRow>, b: RequestBodyUpdate,
                         executed: bool, k: nat)
    requires Decodable(ctx)
    requires UniqueTaskIds(tasks) && k < |tasks|
    requires UpdateTaskOutcome(ctx, users, tasks, tasks[k].id, Some(b), executed).response.status == 200
    ensures var o := UpdateTaskOutcome(ctx, users, tasks, tasks[k].id, Some(b), executed);
      var m := MergedTask(Read(tasks[k]), b);
      |o.tasks| == |tasks| &&
      o.tasks[k] == TaskRow(tasks[k].id, m.name, m.completed, tasks[k].userId) &&
      (forall i :: 0 <= i < |tasks| && i != k ==> o.tasks[i] == tasks[i])
  {
    FoundUnique(tasks, k);
  }

  /** Any stored user may update any existing task: the owner of the task
      is never compared with the token's identity. */
  lemma UpdateTaskIgnoresOwner(ctx: AuthContext, users: seq<CreatedUser>, tasks: seq<TaskRow>,
                               b: RequestBodyUpdate, k: nat)
    requires Decodable(ctx) && CheckUser(ctx, users).Ok? && k < |tasks|
    requires tasks[k].userId != Authenticate(ctx).value
    requires b.name.Some? || b.completed.Some?
    ensures UpdateTaskOutcome(ctx, users, tasks, tasks[k].id, Some(b), true).response == Response(200, Empty)
  {
    assert tasks[k] in tasks;
  }

  /* ---------------------------------------------------------------- */
  /* delete_task                                                      */

  /** `delete_task`: the stored user, the task, then the delete; no check
      of the task's owner. */
  function DeleteTaskOutcome(ctx: AuthContext, users: seq<CreatedUser>, tasks: seq<TaskRow>, taskId: string,
                             executed: bool): (o: Outcome)
    requires Decodable(ctx)
    ensures o.users == users
    ensures o.response.status != 200 ==> o.tasks == tasks
    ensures o.response.status == 200 <==>
      CheckUser(ctx, users).Ok? && (exists t :: t in tasks && t.id == taskId) && executed
    ensures o.response.status == 200 ==> forall t :: t in o.tasks <==> t in tasks && t.id != taskId
    ensures CheckUser(ctx, users).Err? ==> o.response == CheckUser(ctx, users).error
    ensures CheckUser(ctx, users).Ok? && (forall t :: t in tasks ==> t.id != taskId) ==>
      o.response == ErrorResponse("this task not exists", None)
    ensures CheckUser(ctx, users).Ok? && (exists t :: t in tasks && t.id == taskId) && !executed ==>
      o.response == ErrorResponse("error on delete this task", None)
  {
    match CheckUser(ctx, users)
    case Err(response) => Outcome(response, users, tasks)
    case Ok(_) =>
      if |Found(tasks, taskId)| < 1 then Outcome(ErrorResponse("this task not exists", None), users, tasks)
      else if executed then Outcome(Response(200, Empty), users, TasksDeleted(tasks, taskId))
      else Outcome(ErrorResponse("error on delete this task", None), users, tasks)
  }

  method DeleteTask(ctx: AuthContext, conn: Connection, taskId: string, executed: bool) returns (r: Response)
    requires Decodable(ctx)
    modifies conn
    ensures Outcome(r, conn.users, conn.tasks) == DeleteTaskOutcome(ctx, old(conn.users), old(conn.tasks), taskId, executed)
  {
    var check := CheckStoredUser(ctx, conn);
    if check.Err? {
      return check.error;
    }
    var tasks := FindTasks(conn, taskId);
    if |tasks| < 1 {
      r := CreateError("this task not exists", None);
      return;
    }
    if executed {
      conn.DeleteTask(taskId);
      r := Response(200, Empty);
    } else {
      r := CreateError("error on delete this task", None);
    }
  }

  /** Any stored user may delete any existing task, whoever owns it. */
  lemma DeleteTaskIgnoresOwner(ctx: AuthContext, users: seq<CreatedUser>, tasks: seq<TaskRow>, k: nat)
    requires Decodable(ctx) && CheckUser(ctx, users).Ok? && k < |tasks|
    requires tasks[k].userId != Authenticate(ctx).value
    ensures DeleteTaskOutcome(ctx, users, tasks, tasks[k].id, true).response == Response(200, Empty)
    ensures forall t :: t in DeleteTaskOutcome(ctx, users, tasks, tasks[k].id, true).tasks ==> t.id != tasks[k].id
  {
    assert tasks[k] in tasks;
  }

  /* ---------------------------------------------------------------- */
  /* the token check, end to end                                      */

  /** A request without an Authorization header is answered 400 "token is
      necessary" by every task handler, and nothing is written. */
  lemma NoHeaderRefused(decode: string -> TokenClaims, now: int, users: seq<CreatedUser>, tasks: seq<TaskRow>,
                        taskId: string, create: Option<RequestBodyCreate>, update: Option<RequestBodyUpdate>,
                        newId: string, executed: bool)
    ensures var ctx := AuthContext(None, decode, now);
      var refusal := ErrorResponse("token is necessary", None);
      ListTasksOutcome(ctx, users, tasks) == refusal &&
      CreateTaskOutcome(ctx, users, tasks, create, newId, executed) == Outcome(refusal, users, tasks) &&
      UpdateTaskOutcome(ctx, users, tasks, taskId, update, executed) == Outcome(refusal, users, tasks) &&
      DeleteTaskOutcome(ctx, users, tasks, taskId, executed) == Outcome(refusal, users, tasks)
  {
    MissingHeader(decode, now);
  }
}
