/** The records the handlers build and the client-facing projections of
    them (src/views/users.rs, src/views/tasks.rs). A view never carries the
    password, and a task view nested in a user carries no owner. */
module Views {
  import opened Wrappers

  /** A stored user as read back from the `users` table. */
  datatype CreatedUser = CreatedUser(
    id: string, firstname: string, lastname: string, email: string, password: string)

  /** The public view of a user: every column but the password. */
  datatype CreatedUserFormated = CreatedUserFormated(
    id: string, firstname: string, lastname: string, email: string)

  /** A task as nested inside a user view: no owner field. */
  datatype TaskCreatedUserFormated = TaskCreatedUserFormated(id: string, name: string, completed: bool)

  /** A user view together with the views of its tasks. */
  datatype CreatedUserComplete = CreatedUserComplete(
    id: string, firstname: string, lastname: string, email: string,
    tasks: seq<TaskCreatedUserFormated>)

  /** A task as read from the `tasks` table; `completed` is the stored
      integer flag and `user` the joined owner, when the query joined one. */
  datatype TaskCreated = TaskCreated(id: string, name: string, completed: int, user: Option<CreatedUser>)

  /** A task view that embeds its owner's public view. */
  datatype TaskCreatedFormated = TaskCreatedFormated(
    id: string, name: string, completed: bool, user: CreatedUserFormated)

  /** `CreatedUser::format`. */
  function FormatUser(u: CreatedUser): CreatedUserFormated
  {
    CreatedUserFormated(u.id, u.firstname, u.lastname, u.email)
  }

  /** The stored flag read as a boolean: 0 is false, anything else true. */
  function CompletedView(completed: int): bool
  {
    completed != 0
  }

  /** `TaskCreated::format`. */
  function FormatTask(t: TaskCreated): TaskCreatedUserFormated
  {
    TaskCreatedUserFormated(t.id, t.name, CompletedView(t.completed))
  }

  /** `TaskCreated::format_user`; the source unwraps `user`. */
  function FormatTaskUser(t: TaskCreated): TaskCreatedFormated
    requires t.user.Some?
  {
    TaskCreatedFormated(t.id, t.name, CompletedView(t.completed), FormatUser(t.user.value))
  }

  /** The encoding `update_task` stores for a boolean `completed`. */
  function CompletedFlag(completed: bool): (flag: int)
    ensures flag == 0 || flag == 1
  {
    if completed then 1 else 0
  }

  /** Two users have the same view exactly when they agree on everything
      but the password: the view keeps id, names and email and drops the
      password. */
  lemma FormatUserForgetsOnlyPassword(u: CreatedUser, w: CreatedUser)
    ensures FormatUser(u) == FormatUser(w) <==> u.(password := w.password) == w
  {
  }

  /** The view flag is false exactly for a stored 0. */
  lemma CompletedViewMeaning(completed: int)
    ensures !CompletedView(completed) <==> completed == 0
  {
  }

  /** Storing the encoding of `b` and reading it back through the view gives `b`. */
  lemma CompletedRoundTrip(t: TaskCreated, b: bool)
    ensures FormatTask(t.(completed := CompletedFlag(b))).completed == b
  {
  }

  /** Two tasks have the same nested view exactly when they agree on id and
      name and on whether the flag is zero; the owner never reaches it. */
  lemma FormatTaskForgets(t: TaskCreated, w: TaskCreated)
    ensures FormatTask(t) == FormatTask(w) <==>
      t.id == w.id && t.name == w.name && (t.completed == 0 <==> w.completed == 0)
  {
  }

  /** The nested view does not depend on the owner. */
  lemma FormatTaskOwnerFree(t: TaskCreated, owner: Option<CreatedUser>)
    ensures FormatTask(t.(user := owner)) == FormatTask(t)
  {
  }

  /** `format_user` agrees with `format` on id, name and flag, and embeds the
      owner's public view, so neither the owner's password nor a further
      nesting of tasks appears. */
  lemma FormatTaskUserAgrees(t: TaskCreated)
    requires t.user.Some?
    ensures var v := FormatTaskUser(t);
      TaskCreatedUserFormated(v.id, v.name, v.completed) == FormatTask(t) &&
      v.user == FormatUser(t.user.value) &&
      FormatTaskUser(t.(user := Some(t.user.value.(password := "")))) == v
  {
  }
}
