/** Reassembling the rows of `users LEFT OUTER JOIN tasks` into one entry
    per user (src/controllers/users.rs, `list_all_users` and `list_by_id`).
    Each row becomes a user view with zero or one task; the rows are then
    folded, in arrival order, into a list holding one entry per distinct
    user id, each new task appended to its user's entry. */
module RowAssembly {
  import opened Wrappers
  import opened Views

  /** One row of the join. Each column the row closure reads is `Some` when
      `row.get(k)` succeeds: columns 0-3 are the user's id, firstname,
      lastname and email, columns 5-7 the task's id, name and completed. */
  datatype JoinRow = JoinRow(
    userId: Option<string>, firstname: Option<string>, lastname: Option<string>, email: Option<string>,
    taskId: Option<string>, taskName: Option<string>, taskCompleted: Option<int>)

  predicate UserColumnsRead(row: JoinRow)
  {
    row.userId.Some? && row.firstname.Some? && row.lastname.Some? && row.email.Some?
  }

  predicate TaskColumnsRead(row: JoinRow)
  {
    row.taskId.Some? && row.taskName.Some? && row.taskCompleted.Some?
  }

  /** The row closure: a task only when all three task columns read, and no
      user (the `?` error) when a user column does not. */
  function RowToUser(row: JoinRow): (r: Option<CreatedUserComplete>)
    ensures r.Some? <==> UserColumnsRead(row)
    ensures r.Some? ==> |r.value.tasks| <= 1 && (|r.value.tasks| == 1 <==> TaskColumnsRead(row))
  {
    var tasks :=
      if TaskColumnsRead(row)
      then [FormatTask(TaskCreated(row.taskId.value, row.taskName.value, row.taskCompleted.value, None))]
      else [];
    if UserColumnsRead(row)
    then Some(CreatedUserComplete(row.userId.value, row.firstname.value, row.lastname.value, row.email.value, tasks))
    else None
  }

  /** The source unwraps every mapped row, so every user column must read. */
  predicate AllUserColumnsRead(rows: seq<JoinRow>)
  {
    forall i :: 0 <= i < |rows| ==> UserColumnsRead(rows[i])
  }

  /** The mapped rows, in order. */
  function RowUsers(rows: seq<JoinRow>): (users: seq<CreatedUserComplete>)
    requires AllUserColumnsRead(rows)
    ensures |users| == |rows|
    ensures forall i :: 0 <= i < |rows| ==> RowToUser(rows[i]) == Some(users[i])
  {
    if rows == [] then []
    else RowUsers(rows[..|rows| - 1]) + [RowToUser(rows[|rows| - 1]).value]
  }

  /** `iter().position(|item| item.id == id)`: the first index with that id. */
  function Position(users: seq<CreatedUserComplete>, id: string): (r: Option<nat>)
    ensures r.Some? ==> r.value < |users| && users[r.value].id == id
    ensures r.Some? ==> forall i :: 0 <= i < r.value ==> users[i].id != id
    ensures r.None? ==> forall i :: 0 <= i < |users| ==> users[i].id != id
  {
    if users == [] then None
    else if users[0].id == id then Some(0)
    else
      match Position(users[1..], id)
      case None => None
      case Some(p) => Some(p + 1)
  }

  /** One step of the fold: a new id is pushed, a known id gets the row's
      tasks appended to its entry. */
  function Absorb(acc: seq<CreatedUserComplete>, user: CreatedUserComplete): seq<CreatedUserComplete>
  {
    match Position(acc, user.id)
    case None => acc + [user]
    case Some(p) => acc[p := acc[p].(tasks := acc[p].tasks + user.tasks)]
  }

  /** The fold over the mapped rows, in arrival order. */
  function Grouped(s: seq<CreatedUserComplete>): seq<CreatedUserComplete>
  {
    if s == [] then [] else Absorb(Grouped(s[..|s| - 1]), s[|s| - 1])
  }

  /** The tasks of all rows with this id, in row order. */
  function TasksOf(s: seq<CreatedUserComplete>, id: string): seq<TaskCreatedUserFormated>
  {
    if s == [] then []
    else TasksOf(s[..|s| - 1], id) + (if s[|s| - 1].id == id then s[|s| - 1].tasks else [])
  }

  function TotalTasks(s: seq<CreatedUserComplete>): nat
  {
    if s == [] then 0 else TotalTasks(s[..|s| - 1]) + |s[|s| - 1].tasks|
  }

  function IdSet(s: seq<CreatedUserComplete>): set<string>
  {
    set i | 0 <= i < |s| :: s[i].id
  }

  /** The number of rows whose three task columns all read. */
  function CountTaskRows(rows: seq<JoinRow>): nat
  {
    if rows == [] then 0
    else CountTaskRows(rows[..|rows| - 1]) + (if TaskColumnsRead(rows[|rows| - 1]) then 1 else 0)
  }

  /* The characterization of the result of the fold. */

  predicate DistinctIds(g: seq<CreatedUserComplete>)
  {
    forall i, j :: 0 <= i < j < |g| ==> g[i].id != g[j].id
  }

  /** Every id met in `s` has an entry in `g`. */
  predicate Covers(g: seq<CreatedUserComplete>, s: seq<CreatedUserComplete>)
  {
    forall i :: 0 <= i < |s| ==> Position(g, s[i].id).Some?
  }

  /** Each entry is the first row of `s` with its id, carrying the tasks of
      all rows of `s` with that id, in row order. */
  predicate EntriesAssembled(g: seq<CreatedUserComplete>, s: seq<CreatedUserComplete>)
  {
    forall j :: 0 <= j < |g| ==>
      Position(s, g[j].id).Some? && g[j] == s[Position(s, g[j].id).value].(tasks := TasksOf(s, g[j].id))
  }

  /** Both ids occur in `s`, and `a` occurs first. */
  predicate SeenBefore(s: seq<CreatedUserComplete>, a: string, b: string)
  {
    Position(s, a).Some? && Position(s, b).Some? && Position(s, a).value < Position(s, b).value
  }

  /** Entries come in the order in which their ids first occur in `s`. */
  predicate FirstSeenOrder(g: seq<CreatedUserComplete>, s: seq<CreatedUserComplete>)
  {
    forall i, j :: 0 <= i < j < |g| ==> SeenBefore(s, g[i].id, g[j].id)
  }

  predicate GroupedBy(g: seq<CreatedUserComplete>, s: seq<CreatedUserComplete>)
  {
    DistinctIds(g) && Covers(g, s) && EntriesAssembled(g, s) && FirstSeenOrder(g, s)
  }

  lemma PositionSnoc(s: seq<CreatedUserComplete>, u: CreatedUserComplete, id: string)
    ensures Position(s + [u], id) ==
      if Position(s, id).Some? then Position(s, id) else if u.id == id then Some(|s|) else None
  {
    var r := Position(s + [u], id);
    if Position(s, id).Some? {
      assert (s + [u])[Position(s, id).value].id == id;
    } else if u.id == id {
      assert (s + [u])[|s|].id == id;
    }
  }

  lemma PositionSameIds(a: seq<CreatedUserComplete>, b: seq<CreatedUserComplete>, id: string)
    requires |a| == |b|
    requires forall i :: 0 <= i < |a| ==> a[i].id == b[i].id
    ensures Position(a, id) == Position(b, id)
  {
    var ra, rb := Position(a, id), Position(b, id);
    if ra.Some? {
      assert b[ra.value].id == id;
    }
    if rb.Some? {
      assert a[rb.value].id == id;
    }
  }

  lemma {:induction false} TasksOfAbsent(s: seq<CreatedUserComplete>, id: string)
    requires forall i :: 0 <= i < |s| ==> s[i].id != id
    ensures TasksOf(s, id) == []
  {
    if s != [] {
      TasksOfAbsent(s[..|s| - 1], id);
    }
  }

  lemma TasksOfSnoc(p: seq<CreatedUserComplete>, u: CreatedUserComplete, id: string)
    ensures TasksOf(p + [u], id) == TasksOf(p, id) + (if u.id == id then u.tasks else [])
  {
    assert (p + [u])[..|p|] == p;
  }

  /** An id with no entry yet occurs in no earlier row. */
  lemma NewIdUnseen(g0: seq<CreatedUserComplete>, p: seq<CreatedUserComplete>, id: string)
    requires Covers(g0, p)
    requires Position(g0, id).None?
    ensures forall i :: 0 <= i < |p| ==> p[i].id != id
  {
    forall i | 0 <= i < |p|
      ensures p[i].id != id
    {
      assert Position(g0, p[i].id).Some?;
    }
  }

  lemma AbsorbNewDistinct(g0: seq<CreatedUserComplete>, u: CreatedUserComplete)
    requires DistinctIds(g0)
    requires Position(g0, u.id).None?
    ensures DistinctIds(g0 + [u])
  {
  }

  lemma AbsorbNewCovers(g0: seq<CreatedUserComplete>, p: seq<CreatedUserComplete>, u: CreatedUserComplete)
    requires Covers(g0, p)
    ensures Covers(g0 + [u], p + [u])
  {
    var s, g := p + [u], g0 + [u];
    forall i | 0 <= i < |s|
      ensures Position(g, s[i].id).Some?
    {
      PositionSnoc(g0, u, s[i].id);
      if i < |p| {
        assert s[i] == p[i];
      }
    }
  }

  lemma AbsorbNewEntries(g0: seq<CreatedUserComplete>, p: seq<CreatedUserComplete>, u: CreatedUserComplete)
    requires EntriesAssembled(g0, p)
    requires forall i :: 0 <= i < |p| ==> p[i].id != u.id
    ensures EntriesAssembled(g0 + [u], p + [u])
  {
    var s, g := p + [u], g0 + [u];
    TasksOfAbsent(p, u.id);
    forall j | 0 <= j < |g|
      ensures Position(s, g[j].id).Some? && g[j] == s[Position(s, g[j].id).value].(tasks := TasksOf(s, g[j].id))
    {
      PositionSnoc(p, u, g[j].id);
      TasksOfSnoc(p, u, g[j].id);
      if j < |g0| {
        assert g[j] == g0[j];
        assert Position(p, g0[j].id).Some?;
        assert g0[j].id != u.id;
      }
    }
  }

  lemma AbsorbNewOrder(g0: seq<CreatedUserComplete>, p: seq<CreatedUserComplete>, u: CreatedUserComplete)
    requires FirstSeenOrder(g0, p) && EntriesAssembled(g0, p)
    requires forall i :: 0 <= i < |p| ==> p[i].id != u.id
    ensures FirstSeenOrder(g0 + [u], p + [u])
  {
    forall i, j | 0 <= i < j < |g0 + [u]|
      ensures SeenBefore(p + [u], (g0 + [u])[i].id, (g0 + [u])[j].id)
    {
      AbsorbNewOrderPair(g0, p, u, i, j);
    }
  }

  lemma AbsorbNewOrderPair(g0: seq<CreatedUserComplete>, p: seq<CreatedUserComplete>, u: CreatedUserComplete, i: nat, j: nat)
    requires FirstSeenOrder(g0, p) && EntriesAssembled(g0, p)
    requires forall i :: 0 <= i < |p| ==> p[i].id != u.id
    requires i < j < |g0| + 1
    ensures SeenBefore(p + [u], (g0 + [u])[i].id, (g0 + [u])[j].id)
  {
    var s, g := p + [u], g0 + [u];
    PositionSnoc(p, u, u.id);
    assert g[i] == g0[i];
    assert Position(p, g0[i].id).Some?;
    PositionSnoc(p, u, g0[i].id);
    if j < |g0| {
      assert g[j] == g0[j];
      PositionSnoc(p, u, g0[j].id);
      assert Position(p, g0[i].id).value < Position(p, g0[j].id).value;
    } else {
      assert g[j] == u;
    }
  }

  /** The fold step for a row whose id has no entry yet. */
  lemma AbsorbNew(g0: seq<CreatedUserComplete>, p: seq<CreatedUserComplete>, u: CreatedUserComplete)
    requires GroupedBy(g0, p)
    requires Position(g0, u.id).None?
    ensures GroupedBy(g0 + [u], p + [u])
  {
    NewIdUnseen(g0, p, u.id);
    AbsorbNewDistinct(g0, u);
    AbsorbNewCovers(g0, p, u);
    AbsorbNewEntries(g0, p, u);
    AbsorbNewOrder(g0, p, u);
  }

  /** Appending tasks to one entry keeps every id where it was. */
  lemma AppendedSameIds(g0: seq<CreatedUserComplete>, q: nat, more: seq<TaskCreatedUserFormated>)
    requires q < |g0|
    ensures var g := g0[q := g0[q].(tasks := g0[q].tasks + more)];
      |g| == |g0| && (forall j :: 0 <= j < |g| ==> g[j].id == g0[j].id) &&
      (forall id :: Position(g, id) == Position(g0, id))
  {
    var g := g0[q := g0[q].(tasks := g0[q].tasks + more)];
    forall id
      ensures Position(g, id) == Position(g0, id)
    {
      PositionSameIds(g, g0, id);
    }
  }

  lemma AbsorbKnownCovers(g0: seq<CreatedUserComplete>, p: seq<CreatedUserComplete>, u: CreatedUserComplete, q: nat)
    requires Covers(g0, p)
    requires Position(g0, u.id) == Some(q)
    ensures Covers(g0[q := g0[q].(tasks := g0[q].tasks + u.tasks)], p + [u])
  {
    var s, g := p + [u], g0[q := g0[q].(tasks := g0[q].tasks + u.tasks)];
    AppendedSameIds(g0, q, u.tasks);
    forall i | 0 <= i < |s|
      ensures Position(g, s[i].id).Some?
    {
      if i < |p| {
        assert s[i] == p[i];
      }
    }
  }

  lemma AbsorbKnownEntries(g0: seq<CreatedUserComplete>, p: seq<CreatedUserComplete>, u: CreatedUserComplete, q: nat)
    requires DistinctIds(g0) && EntriesAssembled(g0, p)
    requires Position(g0, u.id) == Some(q)
    ensures EntriesAssembled(g0[q := g0[q].(tasks := g0[q].tasks + u.tasks)], p + [u])
  {
    var s, g := p + [u], g0[q := g0[q].(tasks := g0[q].tasks + u.tasks)];
    AppendedSameIds(g0, q, u.tasks);
    forall j | 0 <= j < |g|
      ensures Position(s, g[j].id).Some? && g[j] == s[Position(s, g[j].id).value].(tasks := TasksOf(s, g[j].id))
    {
      assert Position(p, g0[j].id).Some?;
      PositionSnoc(p, u, g[j].id);
      TasksOfSnoc(p, u, g[j].id);
      var k := Position(p, g[j].id).value;
      assert s[k] == p[k];
      if j != q {
        assert g0[j].id != g0[q].id;
        assert g[j] == g0[j];
      }
    }
  }

  lemma AbsorbKnownOrder(g0: seq<CreatedUserComplete>, p: seq<CreatedUserComplete>, u: CreatedUserComplete, q: nat)
    requires FirstSeenOrder(g0, p) && EntriesAssembled(g0, p)
    requires Position(g0, u.id) == Some(q)
    ensures FirstSeenOrder(g0[q := g0[q].(tasks := g0[q].tasks + u.tasks)], p + [u])
  {
    var s, g := p + [u], g0[q := g0[q].(tasks := g0[q].tasks + u.tasks)];
    AppendedSameIds(g0, q, u.tasks);
    forall i, j | 0 <= i < j < |g|
      ensures SeenBefore(s, g[i].id, g[j].id)
    {
      assert g[i].id == g0[i].id && g[j].id == g0[j].id;
      assert SeenBefore(p, g0[i].id, g0[j].id);
      PositionSnoc(p, u, g0[i].id);
      PositionSnoc(p, u, g0[j].id);
    }
  }

  /** The fold step for a row whose id already has the entry at `q`. */
  lemma AbsorbKnown(g0: seq<CreatedUserComplete>, p: seq<CreatedUserComplete>, u: CreatedUserComplete, q: nat)
    requires GroupedBy(g0, p)
    requires Position(g0, u.id) == Some(q)
    ensures GroupedBy(g0[q := g0[q].(tasks := g0[q].tasks + u.tasks)], p + [u])
  {
    AppendedSameIds(g0, q, u.tasks);
    AbsorbKnownCovers(g0, p, u, q);
    AbsorbKnownEntries(g0, p, u, q);
    AbsorbKnownOrder(g0, p, u, q);
  }

  /** The fold gives one entry per distinct id, in first-seen order, each
      entry the first row with its id carrying all that id's tasks in row
      order. */
  lemma {:induction false} GroupedSpec(s: seq<CreatedUserComplete>)
    ensures GroupedBy(Grouped(s), s)
  {
    if s != [] {
      var p, u := s[..|s| - 1], s[|s| - 1];
      assert s == p + [u];
      GroupedSpec(p);
      match Position(Grouped(p), u.id)
      case None => AbsorbNew(Grouped(p), p, u);
      case Some(q) => AbsorbKnown(Grouped(p), p, u, q);
    }
  }

  lemma {:induction false} DistinctCard(g: seq<CreatedUserComplete>)
    requires DistinctIds(g)
    ensures |IdSet(g)| == |g|
  {
    if g != [] {
      var p, u := g[..|g| - 1], g[|g| - 1];
      DistinctCard(p);
      assert IdSet(g) == IdSet(p) + {u.id};
      assert u.id !in IdSet(p);
    }
  }

  /** The entry count is the number of distinct user ids among the rows. */
  lemma GroupedCount(s: seq<CreatedUserComplete>)
    ensures |Grouped(s)| == |IdSet(s)|
  {
    var g := Grouped(s);
    GroupedSpec(s);
    DistinctCard(g);
    assert IdSet(g) == IdSet(s) by {
      forall id | id in IdSet(s) ensures id in IdSet(g) {
        var i :| 0 <= i < |s| && s[i].id == id;
        assert Position(g, s[i].id).Some?;
      }
      forall id | id in IdSet(g) ensures id in IdSet(s) {
        var j :| 0 <= j < |g| && g[j].id == id;
        assert Position(s, g[j].id).Some?;
      }
    }
  }

  /** The loop yields no entry exactly when there is no row. */
  lemma GroupedEmpty(s: seq<CreatedUserComplete>)
    ensures Grouped(s) == [] <==> s == []
  {
    if s != [] {
      GroupedSpec(s);
      assert Position(Grouped(s), s[0].id).Some?;
    }
  }

  lemma {:induction false} TotalTasksUpdate(g: seq<CreatedUserComplete>, q: nat, e: CreatedUserComplete)
    requires q < |g|
    ensures TotalTasks(g[q := e]) == TotalTasks(g) - |g[q].tasks| + |e.tasks|
  {
    var h := g[q := e];
    if q == |g| - 1 {
      assert h[..|h| - 1] == g[..|g| - 1];
    } else {
      assert h[..|h| - 1] == g[..|g| - 1][q := e];
      TotalTasksUpdate(g[..|g| - 1], q, e);
    }
  }

  /** Every task of every row lands in exactly one entry: no task is lost
      or duplicated by the fold. */
  lemma {:induction false} GroupedTotal(s: seq<CreatedUserComplete>)
    ensures TotalTasks(Grouped(s)) == TotalTasks(s)
  {
    if s != [] {
      var p, u := s[..|s| - 1], s[|s| - 1];
      GroupedTotal(p);
      var g0 := Grouped(p);
      match Position(g0, u.id)
      case None =>
        assert (g0 + [u])[..|g0|] == g0;
      case Some(q) =>
        TotalTasksUpdate(g0, q, g0[q].(tasks := g0[q].tasks + u.tasks));
    }
  }

  /** The mapped rows carry one task per row whose task columns all read. */
  lemma {:induction false} RowUsersTasks(rows: seq<JoinRow>)
    requires AllUserColumnsRead(rows)
    ensures TotalTasks(RowUsers(rows)) == CountTaskRows(rows)
  {
    if rows != [] {
      var p := rows[..|rows| - 1];
      RowUsersTasks(p);
      var users := RowUsers(rows);
      assert users[..|users| - 1] == RowUsers(p);
    }
  }

  /** The tasks across all entries are exactly the rows with a task. */
  lemma GroupedTaskCount(rows: seq<JoinRow>)
    requires AllUserColumnsRead(rows)
    ensures TotalTasks(Grouped(RowUsers(rows))) == CountTaskRows(rows)
  {
    GroupedTotal(RowUsers(rows));
    RowUsersTasks(rows);
  }

  lemma GroupedSnoc(s: seq<CreatedUserComplete>, u: CreatedUserComplete)
    ensures Grouped(s + [u]) == Absorb(Grouped(s), u)
  {
    assert (s + [u])[..|s|] == s;
  }

  lemma RowUsersPrefix(rows: seq<JoinRow>, n: nat)
    requires n < |rows| && AllUserColumnsRead(rows)
    ensures AllUserColumnsRead(rows[..n]) && AllUserColumnsRead(rows[..n + 1])
    ensures RowUsers(rows[..n + 1]) == RowUsers(rows[..n]) + [RowToUser(rows[n]).value]
  {
    assert rows[..n + 1][..n] == rows[..n];
  }

  /** The loop of `list_all_users` and `list_by_id`: for each row, look the
      id up among the entries so far; push the row's user when it is new,
      otherwise push its tasks one by one onto the existing entry. */
  method GroupRows(rows: seq<JoinRow>) returns (users: seq<CreatedUserComplete>)
    requires AllUserColumnsRead(rows)
    ensures users == Grouped(RowUsers(rows))
  {
    users := [];
    var n := 0;
    while n < |rows|
      invariant 0 <= n <= |rows|
      invariant AllUserColumnsRead(rows[..n])
      invariant users == Grouped(RowUsers(rows[..n]))
    {
      var user := RowToUser(rows[n]).value;
      ghost var before := users;
      var position := Position(users, user.id);
      if position.None? {
        users := users + [user];
      } else {
        var p := position.value;
        var t := 0;
        assert before[p := before[p].(tasks := before[p].tasks + user.tasks[..0])] == before by {
          assert before[p].tasks + user.tasks[..0] == before[p].tasks;
        }
        while t < |user.tasks|
          invariant 0 <= t <= |user.tasks|
          invariant users == before[p := before[p].(tasks := before[p].tasks + user.tasks[..t])]
        {
          assert users[p].tasks + [user.tasks[t]] == before[p].tasks + user.tasks[..t + 1] by {
            assert user.tasks[..t + 1] == user.tasks[..t] + [user.tasks[t]];
          }
          users := users[p := users[p].(tasks := users[p].tasks + [user.tasks[t]])];
          t := t + 1;
        }
        assert user.tasks[..t] == user.tasks;
      }
      assert users == Absorb(before, user);
      RowUsersPrefix(rows, n);
      GroupedSnoc(RowUsers(rows[..n]), user);
      n := n + 1;
    }
    assert rows[..n] == rows;
  }
}
