/** The user handlers (src/controllers/users.rs). Each writing handler is a
    method that takes and modifies the connection, specified by a function
    giving the response and the tables it leaves behind; what the handlers
    promise is proved about those functions. bcrypt, uuid and the token
    encoder are given as parameters, and whether SQLite accepts a write is
    the flag `executed`. */
module UsersController {
  import opened Wrappers
  import opened Views
  import opened Storage
  import opened Utils
  import opened Middleware
  import opened RowAssembly
  import opened JoinQuery

  datatype RequestBodyUser = RequestBodyUser(firstname: string, lastname: string, email: string, password: string)

  datatype RequestBodyUpdate = RequestBodyUpdate(
    firstname: Option<string>, lastname: Option<string>, email: Option<string>, password: Option<string>)

  datatype RequestBodyLogin = RequestBodyLogin(email: string, password: string)

  const PermissionDenied := "you not have permission for to follow"

  /** The bcrypt cost of a password stored at registration, and at an update. */
  const RegisterCost := 7
  const UpdateCost := 8

  /** `Duration::hours(1)`, the lifetime written into a login token. */
  const TokenLifetime := 3600

  /* ---------------------------------------------------------------- */
  /* list_all_users and list_by_id                                    */

  /** `list_all_users`: every row of the join, grouped by the loop. With
      distinct user ids (the table's primary key) that is every stored
      user, in table order, each with exactly its own tasks. */
  method ListAllUsers(conn: Connection) returns (r: Response)
    ensures r.status == 200 && r.body.Payload? && r.body.json.UsersJson?
    ensures GroupedBy(r.body.json.users, RowUsers(LeftJoin(conn.users, conn.tasks)))
    ensures UniqueUserIds(conn.users) ==> r.body.json.users == ListedAll(conn.users, conn.tasks)
  {
    var rows := LeftJoin(conn.users, conn.tasks);
    var users := GroupRows(rows);
    GroupedSpec(RowUsers(rows));
    if UniqueUserIds(conn.users) {
      ListAll(conn.users, conn.tasks);
    }
    r := ValidJson(Ok(UsersJson(users)));
  }

  /** `list_by_id`: only the owner of the token may read the entry; the
      rows of the join restricted to that id are grouped by the loop, and
      no entry gives "this user is not exists". */
  function ListByIdOutcome(ctx: AuthContext, users: seq<CreatedUser>, tasks: seq<TaskRow>, userId: string): (r: Response)
    requires Decodable(ctx)
    ensures Authenticate(ctx).Err? ==> r == Authenticate(ctx).error
    ensures Authenticate(ctx).Ok? && Authenticate(ctx).value != userId ==>
      r == ErrorResponse(PermissionDenied, Some(401))
  {
    match Authenticate(ctx)
    case Err(response) => response
    case Ok(id) =>
      if id != userId then ErrorResponse(PermissionDenied, Some(401))
      else
        var entries := Grouped(RowUsers(LeftJoin(Selected(users, ById, userId), tasks)));
        if |entries| < 1 then ErrorResponse("this user is not exists", None)
        else ValidJson(Ok(UserJson(entries[0])))
  }

  method ListById(ctx: AuthContext, conn: Connection, userId: string) returns (r: Response)
    requires Decodable(ctx)
    ensures r == ListByIdOutcome(ctx, conn.users, conn.tasks, userId)
  {
    var auth := Authenticate(ctx);
    if auth.Err? {
      return auth.error;
    }
    if auth.value != userId {
      r := CreateError(PermissionDenied, Some(401));
      return;
    }
    var rows := LeftJoin(Selected(conn.users, ById, userId), conn.tasks);
    var users := GroupRows(rows);
    if |users| < 1 {
      r := CreateError("this user is not exists", None);
      return;
    }
    r := ValidJson(Ok(UserJson(users[0])));
  }

  /** The owner gets 200 exactly when a stored user has the id, and
      "this user is not exists" otherwise. */
  lemma ListByIdFound(ctx: AuthContext, users: seq<CreatedUser>, tasks: seq<TaskRow>, userId: string)
    requires Decodable(ctx) && Authenticate(ctx) == Ok(userId)
    ensures ListByIdOutcome(ctx, users, tasks, userId).status == 200 <==> exists u :: u in users && u.id == userId
    ensures (forall u :: u in users ==> u.id != userId) ==>
      ListByIdOutcome(ctx, users, tasks, userId) == ErrorResponse("this user is not exists", None)
  {
    var selected := Selected(users, ById, userId);
    GroupedEmpty(RowUsers(LeftJoin(selected, tasks)));
    if forall u :: u in users ==> u.id != userId {
      SelectedAbsent(users, ById, userId);
    } else {
      var u :| u in users && u.id == userId;
      assert u in selected;
    }
  }

  /** With distinct ids, the owner reads its own entry: its columns
      without the password and exactly the tasks it owns, in table order. */
  lemma ListByIdEntry(ctx: AuthContext, users: seq<CreatedUser>, tasks: seq<TaskRow>, u: CreatedUser)
    requires Decodable(ctx) && Authenticate(ctx) == Ok(u.id)
    requires UniqueUserIds(users) && u in users
    ensures ListByIdOutcome(ctx, users, tasks, u.id) == Response(200, Payload(UserJson(Listed(u, tasks))))
  {
    SelectedUnique(users, u);
    ListAll([u], tasks);
  }

  /* ---------------------------------------------------------------- */
  /* create_user                                                      */

  /** `create_user`: a body that does not parse is "data invalid", an email
      already stored is refused, and otherwise one row is inserted with a
      fresh id and the password hashed at cost 7. */
  function CreateUserOutcome(users: seq<CreatedUser>, tasks: seq<TaskRow>, body: Option<RequestBodyUser>,
                             newId: string, hash: (string, int) -> string, executed: bool): (o: Outcome)
    ensures o.tasks == tasks
    ensures o.response.status == 201 <==>
      body.Some? && executed && forall u :: u in users ==> u.email != body.value.email
    ensures o.response.status == 201 ==>
      o.users == users + [CreatedUser(newId, body.value.firstname, body.value.lastname, body.value.email,
                                      hash(body.value.password, RegisterCost))]
    ensures o.response.status != 201 ==> o.users == users
    ensures body.None? ==> o.response == ErrorResponse("data invalid", None)
    ensures body.Some? && (exists u :: u in users && u.email == body.value.email) ==>
      o.response == ErrorResponse("this email already in use", None)
    ensures body.Some? && (forall u :: u in users ==> u.email != body.value.email) && !executed ==>
      o.response == ErrorResponse("", None)
  {
    match body
    case None => Outcome(ErrorResponse("data invalid", None), users, tasks)
    case Some(b) =>
      if |Selected(users, ByEmail, b.email)| >= 1 then
        assert Selected(users, ByEmail, b.email)[0] in Selected(users, ByEmail, b.email);
        Outcome(ErrorResponse("this email already in use", None), users, tasks)
      else if executed then
        Outcome(Response(201, Empty), users + [CreatedUser(newId, b.firstname, b.lastname, b.email, hash(b.password, RegisterCost))], tasks)
      else Outcome(ErrorResponse("", None), users, tasks)
  }

  method CreateUser(conn: Connection, body: Option<RequestBodyUser>, newId: string,
                    hash: (string, int) -> string, executed: bool) returns (r: Response)
    modifies conn
    ensures Outcome(r, conn.users, conn.tasks) == CreateUserOutcome(old(conn.users), old(conn.tasks), body, newId, hash, executed)
  {
    if body.None? {
      r := CreateError("data invalid", None);
      return;
    }
    var RequestBodyUser(firstname, lastname, email, password) := body.value;
    var users := GetUsers(conn, email, ByEmail);
    if |users| >= 1 {
      r := CreateError("this email already in use", None);
      return;
    }
    if executed {
      conn.InsertUser(CreatedUser(newId, firstname, lastname, email, hash(password, RegisterCost)));
      r := Response(201, Empty);
    } else {
      r := CreateError("", None);
    }
  }

  predicate UniqueEmails(users: seq<CreatedUser>)
  {
    forall i, j :: 0 <= i < j < |users| ==> users[i].email != users[j].email
  }

  /** Registration never stores a second user with the same email. */
  lemma CreateUserKeepsEmailsUnique(users: seq<CreatedUser>, tasks: seq<TaskRow>, body: Option<RequestBodyUser>,
                                    newId: string, hash: (string, int) -> string, executed: bool)
    requires UniqueEmails(users)
    ensures UniqueEmails(CreateUserOutcome(users, tasks, body, newId, hash, executed).users)
  {
    var o := CreateUserOutcome(users, tasks, body, newId, hash, executed);
    if o.response.status == 201 {
      forall i, j | 0 <= i < j < |o.users|
        ensures o.users[i].email != o.users[j].email
      {
        if j == |users| {
          assert o.users[i] == users[i];
          assert users[i] in users;
        }
      }
    }
  }

  /* ---------------------------------------------------------------- */
  /* login                                                            */

  /** `login`: the first stored user with the email, the password checked
      against its stored hash, and a token carrying its id and an expiry
      one hour from now. */
  function LoginOutcome(users: seq<CreatedUser>, body: Option<RequestBodyLogin>,
                        verify: (string, string) -> Option<bool>, encode: (string, int) -> Option<string>,
                        now: int): (r: Response)
    ensures r.status == 200 || r.status == 400
    ensures r.status == 200 ==> (body.Some? && r.body.LoginJson? &&
      exists u :: u in users && u.email == body.value.email && u.id == r.body.id &&
        verify(body.value.password, u.password) == Some(true) &&
        encode(u.id, now + TokenLifetime) == Some(r.body.token))
    ensures r.status == 400 ==> r.body.ErrorJson?
    ensures body.Some? && (forall u :: u in users ==> u.email != body.value.email) ==>
      r == ErrorResponse("this user not exists", None)
  {
    match body
    case None => ErrorResponse("", None)
    case Some(b) =>
      var found := Selected(users, ByEmail, b.email);
      if |found| < 1 then ErrorResponse("this user not exists", None)
      else
        assert found[0] in found;
        match verify(b.password, found[0].password)
        case None => ErrorResponse("", None)
        case Some(ok) =>
          if !ok then ErrorResponse("password is not valid", None)
          else
            match encode(found[0].id, now + TokenLifetime)
            case None => ErrorResponse("", None)
            case Some(jwt) => Response(200, LoginJson(found[0].id, jwt))
  }

  method Login(conn: Connection, body: Option<RequestBodyLogin>, verify: (string, string) -> Option<bool>,
               encode: (string, int) -> Option<string>, now: int) returns (r: Response)
    ensures r == LoginOutcome(conn.users, body, verify, encode, now)
  {
    if body.None? {
      r := CreateError("", None);
      return;
    }
    var RequestBodyLogin(email, password) := body.value;
    var users := GetUsers(conn, email, ByEmail);
    if |users| < 1 {
      r := CreateError("this user not exists", None);
      return;
    }
    var passwordVerified := verify(password, users[0].password);
    if passwordVerified.None? {
      r := CreateError("", None);
    } else if !passwordVerified.value {
      r := CreateError("password is not valid", None);
    } else {
      var token := encode(users[0].id, now + TokenLifetime);
      if token.None? {
        r := CreateError("", None);
      } else {
        r := Response(200, LoginJson(users[0].id, token.value));
      }
    }
  }

  /** With emails unique, looking a stored user up by its email yields that
      user alone. */
  lemma {:induction false} SelectedByEmail(users: seq<CreatedUser>, u: CreatedUser)
    requires UniqueEmails(users) && u in users
    ensures Selected(users, ByEmail, u.email) == [u]
  {
    var pre, last := users[..|users| - 1], users[|users| - 1];
    assert users == pre + [last];
    if last.email == u.email {
      forall w | w in pre
        ensures w.email != u.email
      {
        var k :| 0 <= k < |pre| && pre[k] == w;
        assert users[k] == w;
      }
      SelectedAbsent(pre, ByEmail, u.email);
      var k :| 0 <= k < |users| && users[k] == u;
      assert k == |users| - 1;
    } else {
      assert u in pre;
      assert UniqueEmails(pre);
      SelectedByEmail(pre, u);
    }
  }

  /** The converse of the 200 case: with emails unique, the stored user with
      the email whose password verifies is logged in, with its id and the
      token encoded for an hour from now; should the encoder fail, the
      answer is the generic 400. */
  lemma LoginSucceeds(users: seq<CreatedUser>, u: CreatedUser, b: RequestBodyLogin,
                      verify: (string, string) -> Option<bool>, encode: (string, int) -> Option<string>, now: int)
    requires UniqueEmails(users) && u in users && u.email == b.email
    requires verify(b.password, u.password) == Some(true)
    ensures encode(u.id, now + TokenLifetime).Some? ==>
      LoginOutcome(users, Some(b), verify, encode, now) == Response(200, LoginJson(u.id, encode(u.id, now + TokenLifetime).value))
    ensures encode(u.id, now + TokenLifetime).None? ==>
      LoginOutcome(users, Some(b), verify, encode, now) == ErrorResponse("", None)
  {
    SelectedByEmail(users, u);
  }

  /** A password the stored hash refuses is "password is not valid"; one
      bcrypt cannot check is the generic 400. Both are about the first
      stored user with the email, the one `get_users` returns first. */
  lemma LoginRefused(users: seq<CreatedUser>, b: RequestBodyLogin,
                     verify: (string, string) -> Option<bool>, encode: (string, int) -> Option<string>, now: int)
    requires Selected(users, ByEmail, b.email) != []
    ensures var first := Selected(users, ByEmail, b.email)[0];
      (verify(b.password, first.password) == Some(false) ==>
        LoginOutcome(users, Some(b), verify, encode, now) == ErrorResponse("password is not valid", None)) &&
      (verify(b.password, first.password) == None ==>
        LoginOutcome(users, Some(b), verify, encode, now) == ErrorResponse("", None))
  {
  }

  /** With emails unique, a wrong password for a stored user is refused as
      "password is not valid", whatever the encoder would give. */
  lemma LoginWrongPassword(users: seq<CreatedUser>, u: CreatedUser, b: RequestBodyLogin,
                           verify: (string, string) -> Option<bool>, encode: (string, int) -> Option<string>, now: int)
    requires UniqueEmails(users) && u in users && u.email == b.email
    requires verify(b.password, u.password) == Some(false)
    ensures LoginOutcome(users, Some(b), verify, encode, now) == ErrorResponse("password is not valid", None)
  {
    SelectedByEmail(users, u);
  }

  /** A token issued at `issued` and sent back as "Bearer <token>" is
      accepted, with the id it was issued for, until a day and an hour
      after it was issued (the hour of its expiry plus the day the
      validator tolerates), and refused from then on. */
  lemma LoginThenValidate(id: string, token: string, issued: int, decode: string -> TokenClaims, now: int)
    requires ' ' !in token
    requires decode(token) == JwtData(id, issued + TokenLifetime)
    ensures var ctx := AuthContext(Some(Printable("Bearer " + token)), decode, now);
      Decodable(ctx) &&
      (ValidUser(ctx) == Ok(Id(id)) <==> now - issued < TokenLifetime + SecondsPerDay) &&
      (now - issued >= TokenLifetime + SecondsPerDay ==> ValidUser(ctx) == Err(TokenExpiredAt(13)))
  {
    var ctx := AuthContext(Some(Printable("Bearer " + token)), decode, now);
    assert "Bearer " + token == "Bearer" + " " + token + [];
    TokenIsSecondPiece("Bearer", token, []);
    Decision(ctx, token);
  }

  /* ---------------------------------------------------------------- */
  /* update_user                                                      */

  /** The fields of the body that are present overwrite the stored ones; a
      new password is stored hashed at cost 8. */
  function MergedUser(u: CreatedUser, b: RequestBodyUpdate, hash: (string, int) -> string): CreatedUser
  {
    u.(firstname := if b.firstname.Some? then b.firstname.value else u.firstname,
       lastname := if b.lastname.Some? then b.lastname.value else u.lastname,
       email := if b.email.Some? then b.email.value else u.email,
       password := if b.password.Some? then hash(b.password.value, UpdateCost) else u.password)
  }

  predicate NoFields(b: RequestBodyUpdate)
  {
    b.firstname.None? && b.lastname.None? && b.email.None? && b.password.None?
  }

  /** The id never changes; a field absent from the body keeps its stored
      value, a present one takes the body's value (the password hashed). */
  lemma MergedUserFields(u: CreatedUser, b: RequestBodyUpdate, hash: (string, int) -> string)
    ensures var m := MergedUser(u, b, hash);
      m.id == u.id &&
      (b.firstname.Some? ==> m.firstname == b.firstname.value) &&
      (b.firstname.None? ==> m.firstname == u.firstname) &&
      (b.lastname.Some? ==> m.lastname == b.lastname.value) &&
      (b.lastname.None? ==> m.lastname == u.lastname) &&
      (b.email.Some? ==> m.email == b.email.value) &&
      (b.email.None? ==> m.email == u.email) &&
      (b.password.Some? ==> m.password == hash(b.password.value, UpdateCost)) &&
      (b.password.None? ==> m.password == u.password)
  {
  }

  /** bcrypt salts every hash, so `hash` stands for one call's result and
      two calls are two oracles. Sending the same update twice stores what
      the second one alone would have stored; without a password the
      update is idempotent, and an update with no field is the identity. */
  lemma MergedUserLastWins(u: CreatedUser, b: RequestBodyUpdate, hash1: (string, int) -> string,
                           hash2: (string, int) -> string)
    ensures MergedUser(MergedUser(u, b, hash1), b, hash2) == MergedUser(u, b, hash2)
    ensures b.password.None? ==> MergedUser(MergedUser(u, b, hash1), b, hash2) == MergedUser(u, b, hash1)
    ensures NoFields(b) ==> MergedUser(u, b, hash1) == u
  {
  }

  /** `update_user`, in the order the handler checks: the token, its owner,
      the body, the stored user, at least one field; then the merged row
      is written over every row with that id. */
  function UpdateUserOutcome(ctx: AuthContext, users: seq<CreatedUser>, tasks: seq<TaskRow>, userId: string,
                             body: Option<RequestBodyUpdate>, hash: (string, int) -> string, executed: bool): (o: Outcome)
    requires Decodable(ctx)
    ensures o.tasks == tasks
    ensures o.response.status != 200 ==> o.users == users
    ensures o.response.status == 200 <==>
      Authenticate(ctx) == Ok(userId) && body.Some? && (exists u :: u in users && u.id == userId) &&
      !NoFields(body.value) && executed
    ensures Authenticate(ctx).Err? ==> o.response == Authenticate(ctx).error
    ensures Authenticate(ctx).Ok? && Authenticate(ctx).value != userId ==>
      o.response == ErrorResponse(PermissionDenied, Some(401))
    ensures Authenticate(ctx) == Ok(userId) && body.None? ==> o.response == ErrorResponse("data invalid", None)
    ensures (Authenticate(ctx) == Ok(userId) && body.Some? && (exists u :: u in users && u.id == userId) &&
             !NoFields(body.value) && !executed) ==>
      o.response == ErrorResponse("error on update user", None)
  {
    match Authenticate(ctx)
    case Err(response) => Outcome(response, users, tasks)
    case Ok(id) =>
      if id != userId then Outcome(ErrorResponse(PermissionDenied, Some(401)), users, tasks)
      else
        match body
        case None => Outcome(ErrorResponse("data invalid", None), users, tasks)
        case Some(b) =>
          var found := Selected(users, ById, userId);
          if |found| < 1 then
            assert forall u :: u in users ==> u.id != userId;
            Outcome(ErrorResponse("this user not exists", None), users, tasks)
          else if NoFields(b) then Outcome(ErrorResponse("data invalid", None), users, tasks)
          else if executed then
            assert found[0] in found;
            Outcome(Response(200, Empty), UsersUpdated(users, MergedUser(found[0], b, hash)), tasks)
          else Outcome(ErrorResponse("error on update user", None), users, tasks)
  }

  method UpdateUser(ctx: AuthContext, conn: Connection, userId: string, body: Option<RequestBodyUpdate>,
                    hash: (string, int) -> string, executed: bool) returns (r: Response)
    requires Decodable(ctx)
    modifies conn
    ensures Outcome(r, conn.users, conn.tasks) ==
      UpdateUserOutcome(ctx, old(conn.users), old(conn.tasks), userId, body, hash, executed)
  {
    var auth := Authenticate(ctx);
    if auth.Err? {
      return auth.error;
    }
    if auth.value != userId {
      r := CreateError(PermissionDenied, Some(401));
      return;
    }
    if body.None? {
      r := CreateError("data invalid", None);
      return;
    }
    var RequestBodyUpdate(firstname, lastname, email, password) := body.value;
    var users := GetUsers(conn, userId, ById);
    if |users| < 1 {
      r := CreateError("this user not exists", None);
      return;
    }
    if firstname == None && lastname == None && email == None && password == None {
      r := CreateError("data invalid", None);
      return;
    }
    var user := users[0];
    if firstname != None {
      user := user.(firstname := firstname.value);
    }
    if lastname != None {
      user := user.(lastname := lastname.value);
    }
    if email != None {
      user := user.(email := email.value);
    }
    if password != None {
      user := user.(password := hash(password.value, UpdateCost));
    }
    if executed {
      conn.UpdateUser(user);
      r := Response(200, Empty);
    } else {
      r := CreateError("error on update user", None);
    }
  }

  /** The token's owner is checked before anything else is looked at: a
      different identity gets 401 and the tables stay as they were. */
  lemma UpdateUserPermission(ctx: AuthContext, users: seq<CreatedUser>, tasks: seq<TaskRow>, userId: string,
                             body: Option<RequestBodyUpdate>, hash: (string, int) -> string, executed: bool)
    requires Decodable(ctx)
    requires Authenticate(ctx).Ok? && Authenticate(ctx).value != userId
    ensures UpdateUserOutcome(ctx, users, tasks, userId, body, hash, executed) ==
      Outcome(ErrorResponse(PermissionDenied, Some(401)), users, tasks)
  {
  }

  /** "this user not exists" is checked before the empty update: an
      unknown id is reported as such whatever the body holds, and a body
      without a field is "data invalid" and writes nothing. */
  lemma UpdateUserCheckOrder(ctx: AuthContext, users: seq<CreatedUser>, tasks: seq<TaskRow>, userId: string,
                             b: RequestBodyUpdate, hash: (string, int) -> string, executed: bool)
    requires Decodable(ctx) && Authenticate(ctx) == Ok(userId)
    ensures (forall u :: u in users ==> u.id != userId) ==>
      UpdateUserOutcome(ctx, users, tasks, userId, Some(b), hash, executed) ==
      Outcome(ErrorResponse("this user not exists", None), users, tasks)
    ensures (exists u :: u in users && u.id == userId) && NoFields(b) ==>
      UpdateUserOutcome(ctx, users, tasks, userId, Some(b), hash, executed) ==
      Outcome(ErrorResponse("data invalid", None), users, tasks)
  {
    if forall u :: u in users ==> u.id != userId {
      SelectedAbsent(users, ById, userId);
    }
  }

  /** A successful update rewrites exactly the rows with that id, each to
      the first of them merged with the body, and leaves the others as
      they were; with distinct ids the stored user keeps its id and every
      field the body leaves out. */
  lemma UpdateUserWrites(ctx: AuthContext, users: seq<CreatedUser>, tasks: seq<TaskRow>, userId: string,
                         b: RequestBodyUpdate, hash: (string, int) -> string, executed: bool, k: nat)
    requires Decodable(ctx)
    requires UniqueUserIds(users) && k < |users| && users[k].id == userId
    requires UpdateUserOutcome(ctx, users, tasks, userId, Some(b), hash, executed).response.status == 200
    ensures var o := UpdateUserOutcome(ctx, users, tasks, userId, Some(b), hash, executed);
      |o.users| == |users| &&
      o.users[k] == MergedUser(users[k], b, hash) &&
      (forall i :: 0 <= i < |users| && i != k ==> o.users[i] == users[i])
  {
    SelectedUnique(users, users[k]);
    forall i | 0 <= i < |users| && i != k
      ensures users[i].id != userId
    {
    }
  }

  /** Unlike registration, an update does not look for the email among the
      other users: a user may take another user's email, after which two
      stored users share it. */
  lemma UpdateUserEmailUnchecked(ctx: AuthContext, users: seq<CreatedUser>, tasks: seq<TaskRow>,
                                 hash: (string, int) -> string, k: nat, j: nat)
    requires Decodable(ctx)
    requires UniqueUserIds(users) && k < |users| && j < |users| && k != j
    requires Authenticate(ctx) == Ok(users[k].id)
    ensures var b := RequestBodyUpdate(None, None, Some(users[j].email), None);
      var o := UpdateUserOutcome(ctx, users, tasks, users[k].id, Some(b), hash, true);
      o.response == Response(200, Empty) && !UniqueEmails(o.users)
  {
    var b := RequestBodyUpdate(None, None, Some(users[j].email), None);
    assert users[k] in users;
    UpdateUserWrites(ctx, users, tasks, users[k].id, b, hash, true, k);
    var o := UpdateUserOutcome(ctx, users, tasks, users[k].id, Some(b), hash, true);
    assert o.users[k].email == o.users[j].email;
  }

  /* ---------------------------------------------------------------- */
  /* delete_user                                                      */

  /** `delete_user`: the token's owner only; the rows with that id are
      deleted without first checking that there is one, and the user's
      tasks stay in the tasks table. */
  function DeleteUserOutcome(ctx: AuthContext, users: seq<CreatedUser>, tasks: seq<TaskRow>, userId: string,
                             executed: bool): (o: Outcome)
    requires Decodable(ctx)
    ensures o.tasks == tasks
    ensures o.response.status == 200 <==> Authenticate(ctx) == Ok(userId) && executed
    ensures o.response.status == 200 ==> forall u :: u in o.users <==> u in users && u.id != userId
    ensures o.response.status != 200 ==> o.users == users
    ensures Authenticate(ctx).Err? ==> o.response == Authenticate(ctx).error
    ensures Authenticate(ctx).Ok? && Authenticate(ctx).value != userId ==>
      o.response == ErrorResponse(PermissionDenied, Some(401))
    ensures Authenticate(ctx) == Ok(userId) && !executed ==>
      o.response == ErrorResponse("error on delete this user", None)
  {
    match Authenticate(ctx)
    case Err(response) => Outcome(response, users, tasks)
    case Ok(id) =>
      if id != userId then Outcome(ErrorResponse(PermissionDenied, Some(401)), users, tasks)
      else if executed then Outcome(Response(200, Empty), UsersDeleted(users, userId), tasks)
      else Outcome(ErrorResponse("error on delete this user", None), users, tasks)
  }

  method DeleteUser(ctx: AuthContext, conn: Connection, userId: string, executed: bool) returns (r: Response)
    requires Decodable(ctx)
    modifies conn
    ensures Outcome(r, conn.users, conn.tasks) == DeleteUserOutcome(ctx, old(conn.users), old(conn.tasks), userId, executed)
  {
    var auth := Authenticate(ctx);
    if auth.Err? {
      return auth.error;
    }
    if auth.value != userId {
      r := CreateError(PermissionDenied, Some(401));
      return;
    }
    if executed {
      conn.DeleteUser(userId);
      r := Response(200, Empty);
    } else {
      r := CreateError("error on delete this user", None);
    }
  }

  /** Deleting an id no stored user has still answers 200, and changes nothing. */
  lemma DeleteUserAbsent(ctx: AuthContext, users: seq<CreatedUser>, tasks: seq<TaskRow>, userId: string)
    requires Decodable(ctx) && Authenticate(ctx) == Ok(userId)
    requires forall u :: u in users ==> u.id != userId
    ensures DeleteUserOutcome(ctx, users, tasks, userId, true) == Outcome(Response(200, Empty), users, tasks)
  {
    UsersDeletedAbsent(users, userId);
  }
}
