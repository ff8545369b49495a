/** Request information, error responses and the user lookup shared by all
    handlers (src/utils/mod.rs). */
module Utils {
  import opened Wrappers
  import opened Text
  import opened Views
  import opened Storage

  datatype Method = Get | Post | Put | Delete | OtherMethod(name: string)

  /** `RequestInfo`: the routing key, the method and the path segments. */
  datatype RequestInfo = RequestInfo(path: string, httpMethod: Method, pathSplited: seq<string>)

  /** What a successful handler serialises with `serde_json::to_string`. */
  datatype Json =
    | UsersJson(users: seq<CreatedUserComplete>)
    | UserJson(user: CreatedUserComplete)
    | TasksJson(tasks: seq<TaskCreatedFormated>)

  datatype Body =
    | Empty                               // Body::from("")
    | ErrorJson(error: string)            // {"error": <label>}
    | Payload(json: Json)
    | LoginJson(id: string, token: string) // {"id": .., "token": ..}

  datatype Response = Response(status: int, body: Body)

  datatype SerdeError = SerdeError

  /** What a handler answers and the tables it leaves behind. */
  datatype Outcome = Outcome(response: Response, users: seq<CreatedUser>, tasks: seq<TaskRow>)

  const InternalServerError := "Internal Server Error"

  /** The pieces of `pieces` that are not empty, in their order. */
  function NonEmpty(pieces: seq<string>): (r: seq<string>)
    ensures forall i :: 0 <= i < |r| ==> r[i] != ""
    ensures forall x :: x in r <==> x in pieces && x != ""
    ensures Concat(r) == Concat(pieces)
  {
    if pieces == [] then []
    else
      var rest := NonEmpty(pieces[1..]);
      assert Concat([pieces[0]] + rest) == pieces[0] + Concat(rest) by {
        assert ([pieces[0]] + rest)[1..] == rest;
      }
      assert pieces[0] == "" ==> [] + rest == rest && pieces[0] + Concat(rest) == Concat(rest);
      (if pieces[0] == "" then [] else [pieces[0]]) + rest
  }

  /** `path.split("/").filter(|data| data.len() >= 1)`. */
  function Segments(path: string): (r: seq<string>)
    ensures forall x :: x in r <==> x in Split(path, '/') && x != ""
    ensures forall i :: 0 <= i < |r| ==> r[i] != "" && '/' !in r[i]
  {
    SplitPiecesFree(path, '/');
    var r := NonEmpty(Split(path, '/'));
    assert forall i :: 0 <= i < |r| ==> r[i] in Split(path, '/');
    r
  }

  /** Dropping empty pieces distributes over concatenation, so the kept
      pieces stay in their order. */
  lemma {:induction false} NonEmptyAppend(a: seq<string>, b: seq<string>)
    ensures NonEmpty(a + b) == NonEmpty(a) + NonEmpty(b)
  {
    if a != [] {
      assert (a + b)[1..] == a[1..] + b;
      NonEmptyAppend(a[1..], b);
    } else {
      assert a + b == b;
    }
  }

  /** `get_request_info`: the segments of the URI path and the key
      "/" + first segment, or "//" when there is none. */
  function GetRequestInfo(httpMethod: Method, uriPath: string): (r: RequestInfo)
    ensures r.httpMethod == httpMethod && r.pathSplited == Segments(uriPath)
    ensures |r.path| >= 2 && r.path[0] == '/'
    ensures r.path == "//" <==> r.pathSplited == []
  {
    var pathSplited := Segments(uriPath);
    assert |pathSplited| >= 1 ==> ("/" + pathSplited[0])[1] == pathSplited[0][0] != '/';
    RequestInfo("/" + (if |pathSplited| < 1 then "/" else pathSplited[0]), httpMethod, pathSplited)
  }

  /** The segments are non-empty, free of '/', and together they are the
      path with its slashes deleted, so nothing is lost or reordered. */
  lemma SegmentsMeaning(path: string)
    ensures forall i :: 0 <= i < |Segments(path)| ==> Segments(path)[i] != "" && '/' !in Segments(path)[i]
    ensures Concat(Segments(path)) == Remove(path, '/')
    ensures forall x :: x in Segments(path) <==> x in Split(path, '/') && x != ""
  {
    SplitPiecesFree(path, '/');
    ConcatSplit(path, '/');
    forall i | 0 <= i < |Segments(path)|
      ensures '/' !in Segments(path)[i]
    {
      assert Segments(path)[i] in Split(path, '/');
    }
  }

  /** The key is "/" followed by the first segment, or "//" when the path
      has no non-empty segment; the segments are kept as computed. */
  lemma RequestInfoKey(httpMethod: Method, uriPath: string)
    ensures var info := GetRequestInfo(httpMethod, uriPath);
      info.httpMethod == httpMethod && info.pathSplited == Segments(uriPath) &&
      (|info.pathSplited| == 0 <==> info.path == "//") &&
      (|info.pathSplited| >= 1 ==> info.path == "/" + info.pathSplited[0])
  {
    var info := GetRequestInfo(httpMethod, uriPath);
    SegmentsMeaning(uriPath);
    if |info.pathSplited| >= 1 {
      assert info.path[1..] == info.pathSplited[0];
    }
  }

  /** `create_error`: the given status or 400, and the reason as label or
      "Internal Server Error" when the reason is empty. */
  function ErrorResponse(reason: string, status: Option<int>): (r: Response)
    ensures r.body.ErrorJson? && r.body.error != ""
  {
    Response(if status.Some? then status.value else 400,
             ErrorJson(if |reason| < 1 then InternalServerError else reason))
  }

  method CreateError(reason: string, status: Option<int>) returns (r: Response)
    ensures r == ErrorResponse(reason, status)
  {
    var code := if status != None then status.value else 400;
    var errorLabel := reason;
    if |reason| < 1 {
      errorLabel := InternalServerError;
    }
    r := Response(code, ErrorJson(errorLabel));
  }

  /** The defaults of `create_error`, stated case by case. */
  lemma ErrorResponseDefaults(reason: string, status: Option<int>)
    ensures ErrorResponse(reason, status).status == (if status.None? then 400 else status.value)
    ensures ErrorResponse(reason, status).body.error == reason <==> reason != ""
    ensures reason == "" ==> ErrorResponse(reason, status).body.error == "Internal Server Error"
  {
  }

  /** `valid_json`: 200 with the payload, or the generic error on a
      serialisation failure. */
  function ValidJson(json: Result<Json, SerdeError>): (r: Response)
    ensures r.status == 200 <==> json.Ok?
    ensures json.Ok? ==> r.body == Payload(json.value)
    ensures json.Err? ==> r == ErrorResponse("", None)
  {
    match json
    case Ok(data) => Response(200, Payload(data))
    case Err(_) => ErrorResponse("", None)
  }

  /** The two lookups `get_users` is called with. */
  datatype QueryType = ByEmail | ById

  function Key(u: CreatedUser, queryType: QueryType): string
  {
    match queryType
    case ByEmail => u.email
    case ById => u.id
  }

  /** `SELECT * FROM users WHERE <email or id> = ?`: the matching rows in table order. */
  function Selected(users: seq<CreatedUser>, queryType: QueryType, value: string): (r: seq<CreatedUser>)
    ensures forall u :: u in r <==> u in users && Key(u, queryType) == value
    ensures |r| <= |users|
  {
    if users == [] then []
    else
      var last := users[|users| - 1];
      Selected(users[..|users| - 1], queryType, value) + (if Key(last, queryType) == value then [last] else [])
  }

  /** No stored user has the value: the query yields nothing. */
  lemma {:induction false} SelectedAbsent(users: seq<CreatedUser>, queryType: QueryType, value: string)
    requires forall u :: u in users ==> Key(u, queryType) != value
    ensures Selected(users, queryType, value) == []
  {
    if users != [] {
      SelectedAbsent(users[..|users| - 1], queryType, value);
    }
  }

  /** With the id as primary key, looking a stored user up by its id yields
      that user alone. */
  lemma {:induction false} SelectedUnique(users: seq<CreatedUser>, u: CreatedUser)
    requires UniqueUserIds(users) && u in users
    ensures Selected(users, ById, u.id) == [u]
  {
    var pre, last := users[..|users| - 1], users[|users| - 1];
    assert users == pre + [last];
    if last.id == u.id {
      forall w | w in pre
        ensures w.id != u.id
      {
        var k :| 0 <= k < |pre| && pre[k] == w;
        assert users[k] == w;
      }
      SelectedAbsent(pre, ById, u.id);
      var k :| 0 <= k < |users| && users[k] == u;
      assert k == |users| - 1;
    } else {
      assert u in pre;
      assert UniqueUserIds(pre);
      SelectedUnique(pre, u);
    }
  }

  /** `get_users`: runs the query and pushes every row it yields. */
  method GetUsers(conn: Connection, value: string, queryType: QueryType) returns (users: seq<CreatedUser>)
    ensures users == Selected(conn.users, queryType, value)
    ensures forall u :: u in users <==> u in conn.users && Key(u, queryType) == value
  {
    var rows := conn.users;
    users := [];
    var i := 0;
    while i < |rows|
      invariant 0 <= i <= |rows|
      invariant users == Selected(rows[..i], queryType, value)
    {
      assert rows[..i + 1][..i] == rows[..i];
      if Key(rows[i], queryType) == value {
        users := users + [rows[i]];
      }
      i := i + 1;
    }
    assert rows[..i] == rows;
  }
}
