/** The SQLite connection as an abstract pair of tables. Each method is the
    effect of one SQL statement the handlers execute; whether SQLite accepts
    a statement is decided by the handler's caller and is not modelled here. */
module Storage {
  import opened Views

  /** A row of the `tasks` table: id, name, completed (INT) and user_id. */
  datatype TaskRow = TaskRow(id: string, name: string, completed: int, userId: string)

  /** `id` is the users table's primary key. */
  predicate UniqueUserIds(users: seq<CreatedUser>)
  {
    forall i, j :: 0 <= i < j < |users| ==> users[i].id != users[j].id
  }

  /** `id` is the tasks table's primary key. */
  predicate UniqueTaskIds(tasks: seq<TaskRow>)
  {
    forall i, j :: 0 <= i < j < |tasks| ==> tasks[i].id != tasks[j].id
  }

  /** `UPDATE users SET firstname = ?, lastname = ?, email = ?, password = ? WHERE id = ?`. */
  function UsersUpdated(users: seq<CreatedUser>, row: CreatedUser): (r: seq<CreatedUser>)
    ensures |r| == |users|
    ensures forall i :: 0 <= i < |r| ==> r[i].id == users[i].id
    ensures forall i :: 0 <= i < |r| ==> r[i] == if users[i].id == row.id then row else users[i]
  {
    seq(|users|, i requires 0 <= i < |users| => if users[i].id == row.id then row else users[i])
  }

  /** With the id as primary key, the update rewrites exactly the one row
      that has the id. */
  lemma UsersUpdatedUnique(users: seq<CreatedUser>, row: CreatedUser, k: int)
    requires UniqueUserIds(users) && 0 <= k < |users| && users[k].id == row.id
    ensures UsersUpdated(users, row) == users[k := row]
  {
    assert forall i :: 0 <= i < |users| && i != k ==> users[i].id != row.id;
  }

  /** `DELETE FROM users WHERE id = ?`: the other rows, in their order. */
  function UsersDeleted(users: seq<CreatedUser>, id: string): (r: seq<CreatedUser>)
    ensures forall u :: u in r <==> u in users && u.id != id
    ensures |r| <= |users|
  {
    if users == [] then []
    else (if users[0].id == id then [] else [users[0]]) + UsersDeleted(users[1..], id)
  }

  /** The delete works row by row, so the surviving rows keep their order. */
  lemma {:induction false} UsersDeletedAppend(a: seq<CreatedUser>, b: seq<CreatedUser>, id: string)
    ensures UsersDeleted(a + b, id) == UsersDeleted(a, id) + UsersDeleted(b, id)
  {
    if a != [] {
      var head := if a[0].id == id then [] else [a[0]];
      assert (a + b)[0] == a[0] && (a + b)[1..] == a[1..] + b;
      assert UsersDeleted(a + b, id) == head + UsersDeleted(a[1..] + b, id);
      UsersDeletedAppend(a[1..], b, id);
      assert UsersDeleted(a, id) == head + UsersDeleted(a[1..], id);
    } else {
      assert a + b == b;
    }
  }

  /** Deleting an id no row has changes nothing. */
  lemma {:induction false} UsersDeletedAbsent(users: seq<CreatedUser>, id: string)
    requires forall u :: u in users ==> u.id != id
    ensures UsersDeleted(users, id) == users
  {
    if users != [] {
      assert users[0] in users;
      UsersDeletedAbsent(users[1..], id);
      assert [users[0]] + users[1..] == users;
    }
  }

  /** `UPDATE tasks SET name = ?, completed = ? WHERE tasks.id = ?`. */
  function TasksUpdated(tasks: seq<TaskRow>, id: string, name: string, completed: int): (r: seq<TaskRow>)
    ensures |r| == |tasks|
    ensures forall i :: 0 <= i < |r| ==> r[i].id == tasks[i].id && r[i].userId == tasks[i].userId
    ensures forall i :: 0 <= i < |r| && tasks[i].id != id ==> r[i] == tasks[i]
    ensures forall i :: 0 <= i < |r| && tasks[i].id == id ==> r[i].name == name && r[i].completed == completed
  {
    seq(|tasks|, i requires 0 <= i < |tasks| =>
      if tasks[i].id == id then tasks[i].(name := name, completed := completed) else tasks[i])
  }

  /** `DELETE FROM tasks WHERE id = ?`: the other rows, in their order. */
  function TasksDeleted(tasks: seq<TaskRow>, id: string): (r: seq<TaskRow>)
    ensures forall t :: t in r <==> t in tasks && t.id != id
    ensures |r| <= |tasks|
  {
    if tasks == [] then []
    else (if tasks[0].id == id then [] else [tasks[0]]) + TasksDeleted(tasks[1..], id)
  }

  /** The delete works row by row, so the surviving tasks keep their order. */
  lemma {:induction false} TasksDeletedAppend(a: seq<TaskRow>, b: seq<TaskRow>, id: string)
    ensures TasksDeleted(a + b, id) == TasksDeleted(a, id) + TasksDeleted(b, id)
  {
    if a != [] {
      var head := if a[0].id == id then [] else [a[0]];
      assert (a + b)[0] == a[0] && (a + b)[1..] == a[1..] + b;
      assert TasksDeleted(a + b, id) == head + TasksDeleted(a[1..] + b, id);
      TasksDeletedAppend(a[1..], b, id);
      assert TasksDeleted(a, id) == head + TasksDeleted(a[1..], id);
    } else {
      assert a + b == b;
    }
  }

  /** Deleting a task id no row has changes nothing. */
  lemma {:induction false} TasksDeletedAbsent(tasks: seq<TaskRow>, id: string)
    requires forall t :: t in tasks ==> t.id != id
    ensures TasksDeleted(tasks, id) == tasks
  {
    if tasks != [] {
      assert tasks[0] in tasks;
      TasksDeletedAbsent(tasks[1..], id);
      assert [tasks[0]] + tasks[1..] == tasks;
    }
  }

  class Connection {
    var users: seq<CreatedUser>
    var tasks: seq<TaskRow>

    constructor (users: seq<CreatedUser>, tasks: seq<TaskRow>)
      ensures this.users == users && this.tasks == tasks
    {
      this.users := users;
      this.tasks := tasks;
    }

    /** `INSERT INTO users VALUES (?, ?, ?, ?, ?)`. */
    method InsertUser(row: CreatedUser)
      modifies this
      ensures users == old(users) + [row] && tasks == old(tasks)
    {
      users := users + [row];
    }

    method UpdateUser(row: CreatedUser)
      modifies this
      ensures users == UsersUpdated(old(users), row) && tasks == old(tasks)
    {
      users := UsersUpdated(users, row);
    }

    /** Deleting a user leaves its tasks in place: the schema declares no cascade. */
    method DeleteUser(id: string)
      modifies this
      ensures users == UsersDeleted(old(users), id) && tasks == old(tasks)
    {
      users := UsersDeleted(users, id);
    }

    /** `INSERT INTO tasks VALUES(?, ?, ?, ?)`. */
    method InsertTask(row: TaskRow)
      modifies this
      ensures tasks == old(tasks) + [row] && users == old(users)
    {
      tasks := tasks + [row];
    }

    method UpdateTask(id: string, name: string, completed: int)
      modifies this
      ensures tasks == TasksUpdated(old(tasks), id, name, completed) && users == old(users)
    {
      tasks := TasksUpdated(tasks, id, name, completed);
    }

    method DeleteTask(id: string)
      modifies this
      ensures tasks == TasksDeleted(old(tasks), id) && users == old(users)
    {
      tasks := TasksDeleted(tasks, id);
    }
  }
}
