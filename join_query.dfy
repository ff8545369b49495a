/** The rows of `users LEFT OUTER JOIN tasks ON tasks.user_id = users.id`
    (src/controllers/users.rs, `list_all_users` and `list_by_id`), taken in
    nested-loop order: users in table order, and for each user the tasks it
    owns in table order, or a single row of NULL task columns when it owns
    none. Fed through the row closure and the grouping loop, these rows give
    every stored user once, with exactly its own tasks. */
module JoinQuery {
  import opened Wrappers
  import opened Views
  import opened Storage
  import opened RowAssembly

  /** The tasks whose `user_id` is `id`, in table order. */
  function OwnedBy(tasks: seq<TaskRow>, id: string): (r: seq<TaskRow>)
    ensures forall t :: t in r <==> t in tasks && t.userId == id
    ensures |r| <= |tasks|
  {
    if tasks == [] then []
    else
      var last := tasks[|tasks| - 1];
      OwnedBy(tasks[..|tasks| - 1], id) + (if last.userId == id then [last] else [])
  }

  /** The join row of a user and one of its tasks: every column reads. */
  function TaskJoinRow(u: CreatedUser, t: TaskRow): JoinRow
  {
    JoinRow(Some(u.id), Some(u.firstname), Some(u.lastname), Some(u.email), Some(t.id), Some(t.name), Some(t.completed))
  }

  /** The join row of a user without tasks: the task columns are NULL and
      do not read as text or integer. */
  function NullTaskRow(u: CreatedUser): JoinRow
  {
    JoinRow(Some(u.id), Some(u.firstname), Some(u.lastname), Some(u.email), None, None, None)
  }

  /** The rows the join produces for one user. */
  function UserJoinRows(u: CreatedUser, tasks: seq<TaskRow>): (rows: seq<JoinRow>)
  {
    var owned := OwnedBy(tasks, u.id);
    if owned == [] then [NullTaskRow(u)]
    else seq(|owned|, i requires 0 <= i < |owned| => TaskJoinRow(u, owned[i]))
  }

  function LeftJoin(users: seq<CreatedUser>, tasks: seq<TaskRow>): (rows: seq<JoinRow>)
    ensures AllUserColumnsRead(rows)
    ensures |rows| >= |users|
  {
    if users == [] then []
    else LeftJoin(users[..|users| - 1], tasks) + UserJoinRows(users[|users| - 1], tasks)
  }

  /** A LEFT JOIN keeps every user: each has at least one row, with or
      without a task. */
  lemma {:induction false} LeftJoinKeepsUsers(users: seq<CreatedUser>, tasks: seq<TaskRow>)
    ensures forall u :: u in users ==> exists r :: r in LeftJoin(users, tasks) && r.userId == Some(u.id)
  {
    if users != [] {
      var pre, last := users[..|users| - 1], users[|users| - 1];
      LeftJoinKeepsUsers(pre, tasks);
      var front, block := LeftJoin(pre, tasks), UserJoinRows(last, tasks);
      var rows := LeftJoin(users, tasks);
      assert rows == front + block;
      assert block[0].userId == Some(last.id);
      forall u | u in users
        ensures exists r :: r in rows && r.userId == Some(u.id)
      {
        var i :| 0 <= i < |users| && users[i] == u;
        if i == |users| - 1 {
          assert rows[|front|] == block[0];
        } else {
          assert pre[i] == u;
          var r :| r in front && r.userId == Some(u.id);
          assert r in rows;
        }
      }
    }
  }

  /** The nested task view of a stored task (`TaskCreated::format`, no owner). */
  function TaskView(t: TaskRow): TaskCreatedUserFormated
  {
    FormatTask(TaskCreated(t.id, t.name, t.completed, None))
  }

  /** A user as the listing shows it: its columns without the password, and
      the views of the tasks it owns in table order. */
  function Listed(u: CreatedUser, tasks: seq<TaskRow>): CreatedUserComplete
  {
    var owned := OwnedBy(tasks, u.id);
    CreatedUserComplete(u.id, u.firstname, u.lastname, u.email,
      seq(|owned|, i requires 0 <= i < |owned| => TaskView(owned[i])))
  }

  function ListedAll(users: seq<CreatedUser>, tasks: seq<TaskRow>): seq<CreatedUserComplete>
  {
    seq(|users|, i requires 0 <= i < |users| => Listed(users[i], tasks))
  }

  /** The mapped rows are the rows mapped one by one. */
  lemma RowUsersPointwise(rows: seq<JoinRow>)
    requires AllUserColumnsRead(rows)
    ensures RowUsers(rows) == seq(|rows|, i requires 0 <= i < |rows| => RowToUser(rows[i]).value)
  {
  }

  lemma RowUsersAppend(a: seq<JoinRow>, b: seq<JoinRow>)
    requires AllUserColumnsRead(a) && AllUserColumnsRead(b)
    ensures AllUserColumnsRead(a + b)
    ensures RowUsers(a + b) == RowUsers(a) + RowUsers(b)
  {
    assert AllUserColumnsRead(a + b) by {
      forall i | 0 <= i < |a + b|
        ensures UserColumnsRead((a + b)[i])
      {
        if i >= |a| {
          assert (a + b)[i] == b[i - |a|];
        }
      }
    }
    RowUsersPointwise(a);
    RowUsersPointwise(b);
    RowUsersPointwise(a + b);
  }

  /** A block of rows that all carry one-task entries for the same id
      gathers, in order, exactly those tasks. */
  lemma {:induction false} TasksOfSingles(b: seq<CreatedUserComplete>, id: string, vs: seq<TaskCreatedUserFormated>)
    requires |b| == |vs|
    requires forall i :: 0 <= i < |b| ==> b[i].id == id && b[i].tasks == [vs[i]]
    ensures TasksOf(b, id) == vs
  {
    if b != [] {
      TasksOfSingles(b[..|b| - 1], id, vs[..|vs| - 1]);
      assert vs == vs[..|vs| - 1] + [vs[|vs| - 1]];
    }
  }

  /** Folding a block of rows with a new id after `s` adds one entry: the
      block's first row, carrying the tasks of the whole block. */
  lemma {:induction false} GroupedBlock(s: seq<CreatedUserComplete>, b: seq<CreatedUserComplete>, id: string)
    requires b != []
    requires forall i :: 0 <= i < |b| ==> b[i].id == id
    requires Position(Grouped(s), id).None?
    ensures Grouped(s + b) == Grouped(s) + [b[0].(tasks := TasksOf(b, id))]
  {
    var g := Grouped(s);
    if |b| == 1 {
      assert b == [b[0]];
      GroupedSnoc(s, b[0]);
      assert TasksOf(b, id) == TasksOf([], id) + b[0].tasks by {
        assert b[..0] == [];
      }
      assert Absorb(g, b[0]) == g + [b[0]];
      assert b[0].(tasks := TasksOf(b, id)) == b[0];
    } else {
      var p, u := b[..|b| - 1], b[|b| - 1];
      GroupedBlock(s, p, id);
      assert s + b == (s + p) + [u];
      assert p[0] == b[0];
      GroupedBlockStep(s + p, g, b[0].(tasks := TasksOf(p, id)), u);
      assert b[..|b| - 1] == p;
    }
  }

  /** One more row for the user who closes the accumulator extends that user's tasks. */
  lemma GroupedBlockStep(t: seq<CreatedUserComplete>, g: seq<CreatedUserComplete>,
                         e: CreatedUserComplete, u: CreatedUserComplete)
    requires Grouped(t) == g + [e]
    requires Position(g, e.id).None? && u.id == e.id
    ensures Grouped(t + [u]) == g + [e.(tasks := e.tasks + u.tasks)]
  {
    assert (t + [u])[..|t + [u]| - 1] == t;
    PositionSnoc(g, e, e.id);
    assert (g + [e])[|g| := e.(tasks := e.tasks + u.tasks)] == g + [e.(tasks := e.tasks + u.tasks)];
  }

  /** The rows of one user map to a non-empty block of entries with its id,
      whose first entry and gathered tasks make up the user's listing. */
  lemma UserBlock(u: CreatedUser, tasks: seq<TaskRow>)
    ensures AllUserColumnsRead(UserJoinRows(u, tasks))
    ensures var b := RowUsers(UserJoinRows(u, tasks));
      b != [] && (forall i :: 0 <= i < |b| ==> b[i].id == u.id) &&
      b[0].(tasks := TasksOf(b, u.id)) == Listed(u, tasks)
  {
    var rows := UserJoinRows(u, tasks);
    var owned := OwnedBy(tasks, u.id);
    RowUsersPointwise(rows);
    var b := RowUsers(rows);
    var vs := seq(|owned|, i requires 0 <= i < |owned| => TaskView(owned[i]));
    if owned == [] {
      assert b == [RowToUser(NullTaskRow(u)).value];
      assert TasksOf(b, u.id) == TasksOf([], u.id) + [] by {
        assert b[..0] == [];
      }
    } else {
      forall i | 0 <= i < |b|
        ensures b[i].id == u.id && b[i].tasks == [vs[i]]
      {
        assert rows[i] == TaskJoinRow(u, owned[i]);
      }
      TasksOfSingles(b, u.id, vs);
    }
  }

  lemma ListedAllSnoc(users: seq<CreatedUser>, tasks: seq<TaskRow>)
    requires users != []
    ensures ListedAll(users, tasks) == ListedAll(users[..|users| - 1], tasks) + [Listed(users[|users| - 1], tasks)]
  {
  }

  /** A user whose id no earlier user has gets no entry in the earlier users' listing. */
  lemma FreshId(pre: seq<CreatedUser>, u: CreatedUser, tasks: seq<TaskRow>)
    requires forall i :: 0 <= i < |pre| ==> pre[i].id != u.id
    ensures Position(ListedAll(pre, tasks), u.id).None?
  {
    var g := ListedAll(pre, tasks);
    forall i | 0 <= i < |g|
      ensures g[i].id != u.id
    {
      assert g[i].id == pre[i].id;
    }
  }

  /** The listing of `list_all_users`: with distinct user ids, the rows of
      the join grouped by the loop are every stored user, in table order,
      each once, carrying exactly the tasks it owns in table order. */
  lemma {:induction false} ListAll(users: seq<CreatedUser>, tasks: seq<TaskRow>)
    requires UniqueUserIds(users)
    ensures Grouped(RowUsers(LeftJoin(users, tasks))) == ListedAll(users, tasks)
  {
    if users != [] {
      var pre, u := users[..|users| - 1], users[|users| - 1];
      assert UniqueUserIds(pre);
      ListAll(pre, tasks);
      forall i | 0 <= i < |pre|
        ensures pre[i].id != u.id
      {
        assert pre[i] == users[i];
      }
      FreshId(pre, u, tasks);
      var s := RowUsers(LeftJoin(pre, tasks));
      UserBlock(u, tasks);
      var b := RowUsers(UserJoinRows(u, tasks));
      RowUsersAppend(LeftJoin(pre, tasks), UserJoinRows(u, tasks));
      GroupedBlock(s, b, u.id);
      ListedAllSnoc(users, tasks);
    }
  }
}
