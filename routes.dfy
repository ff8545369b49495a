/** The dispatch of `routes` (src/main.rs): one match on the method and the
    routing key, with the id routes guarded by the presence of a second
    path segment, which is passed on as the id. */
module Routes {
  import opened Wrappers
  import opened Text
  import opened Utils

  /** The handler a request is sent to, with the id it is given. */
  datatype Handler =
    | ListAllUsersRoute
    | ListByIdRoute(userId: string)
    | CreateUserRoute
    | LoginRoute
    | UpdateUserRoute(userId: string)
    | DeleteUserRoute(userId: string)
    | ListTasksRoute
    | CreateTaskRoute
    | UpdateTaskRoute(taskId: string)
    | DeleteTaskRoute(taskId: string)
    | Respond(response: Response)   // no handler: the response is returned as it is

  const NoRoute := "this router is not exists"

  function Route(info: RequestInfo): (h: Handler)
    ensures h.Respond? ==> h.response == ErrorResponse(NoRoute, None)
  {
    var m, key, segs := info.httpMethod, info.path, info.pathSplited;
    if m == Get && key == "/users" then ListAllUsersRoute
    else if m == Get && key == "/user" && |segs| > 1 then ListByIdRoute(segs[1])
    else if m == Post && key == "/register" then CreateUserRoute
    else if m == Post && key == "/login" then LoginRoute
    else if m == Put && key == "/user" && |segs| > 1 then UpdateUserRoute(segs[1])
    else if m == Delete && key == "/user" && |segs| > 1 then DeleteUserRoute(segs[1])
    else if m == Get && key == "/tasks" then ListTasksRoute
    else if m == Post && key == "/tasks" then CreateTaskRoute
    else if m == Put && key == "/task" && |segs| > 1 then UpdateTaskRoute(segs[1])
    else if m == Delete && key == "/task" && |segs| > 1 then DeleteTaskRoute(segs[1])
    else Respond(ErrorResponse(NoRoute, None))
  }

  /** A request as it arrives: its method and URI path. */
  function Dispatch(m: Method, uriPath: string): Handler
  {
    Route(GetRequestInfo(m, uriPath))
  }

  /** The handlers that take an id from the path. */
  predicate TakesId(h: Handler)
  {
    h.ListByIdRoute? || h.UpdateUserRoute? || h.DeleteUserRoute? || h.UpdateTaskRoute? || h.DeleteTaskRoute?
  }

  function IdOf(h: Handler): string
    requires TakesId(h)
  {
    match h
    case ListByIdRoute(id) => id
    case UpdateUserRoute(id) => id
    case DeleteUserRoute(id) => id
    case UpdateTaskRoute(id) => id
    case DeleteTaskRoute(id) => id
  }

  /** An id route is taken only with a second segment, and its id is that
      segment; the routes without an id need no segment beyond the key. */
  lemma IdIsSecondSegment(info: RequestInfo)
    ensures TakesId(Route(info)) ==> |info.pathSplited| > 1 && IdOf(Route(info)) == info.pathSplited[1]
    ensures TakesId(Route(info)) ==> info.path == "/user" || info.path == "/task"
  {
  }

  /** The table, keyed by method and routing key, as the match lists it. */
  lemma RouteTable(info: RequestInfo)
    ensures var m, key, segs := info.httpMethod, info.path, info.pathSplited;
      (m == Get && key == "/users" ==> Route(info) == ListAllUsersRoute) &&
      (m == Post && key == "/register" ==> Route(info) == CreateUserRoute) &&
      (m == Post && key == "/login" ==> Route(info) == LoginRoute) &&
      (m == Get && key == "/tasks" ==> Route(info) == ListTasksRoute) &&
      (m == Post && key == "/tasks" ==> Route(info) == CreateTaskRoute) &&
      (|segs| > 1 && key == "/user" ==>
        (m == Get ==> Route(info) == ListByIdRoute(segs[1])) &&
        (m == Put ==> Route(info) == UpdateUserRoute(segs[1])) &&
        (m == Delete ==> Route(info) == DeleteUserRoute(segs[1]))) &&
      (|segs| > 1 && key == "/task" ==>
        (m == Put ==> Route(info) == UpdateTaskRoute(segs[1])) &&
        (m == Delete ==> Route(info) == DeleteTaskRoute(segs[1])))
  {
  }

  /** The ten entries of the table: a method, a key and, for `/user` and
      `/task`, a second segment. */
  predicate Routed(info: RequestInfo)
  {
    var m, key, routesId := info.httpMethod, info.path, |info.pathSplited| > 1;
    (m == Get && key == "/users") ||
    (m == Post && key == "/register") ||
    (m == Post && key == "/login") ||
    (m == Get && key == "/tasks") ||
    (m == Post && key == "/tasks") ||
    (routesId && key == "/user" && (m == Get || m == Put || m == Delete)) ||
    (routesId && key == "/task" && (m == Put || m == Delete))
  }

  /** A request falls through to 400 "this router is not exists" exactly
      when it is none of the table's entries: `DELETE /users`,
      `GET /register` or `GET /task/<id>` fall through like an unknown key. */
  lemma FallthroughIff(info: RequestInfo)
    ensures Route(info).Respond? <==> !Routed(info)
    ensures !Routed(info) ==> Route(info) == Respond(Response(400, ErrorJson(NoRoute)))
  {
  }

  /** `/user` and `/task` without an id segment, any key outside the
      table, and any other method fall through to the 400 "this router is
      not exists". */
  lemma Fallthrough(info: RequestInfo)
    ensures |info.pathSplited| <= 1 && (info.path == "/user" || info.path == "/task") ==>
      Route(info) == Respond(ErrorResponse(NoRoute, None))
    ensures info.path !in {"/users", "/user", "/register", "/login", "/tasks", "/task"} ==>
      Route(info) == Respond(Response(400, ErrorJson(NoRoute)))
    ensures info.httpMethod.OtherMethod? ==> Route(info).Respond?
  {
  }

  /** Segments after the second are never looked at. */
  lemma ExtraSegmentsIgnored(info: RequestInfo, extra: seq<string>)
    requires |info.pathSplited| >= 2
    ensures Route(info.(pathSplited := info.pathSplited + extra)) == Route(info)
  {
    var longer := info.pathSplited + extra;
    assert longer[1] == info.pathSplited[1];
  }

  lemma NonEmptyCons(x: string, rest: seq<string>)
    ensures NonEmpty([x] + rest) == (if x == "" then [] else [x]) + NonEmpty(rest)
  {
    assert ([x] + rest)[1..] == rest;
  }

  /** The segments of "/key": the key alone. */
  lemma KeyPath(key: string)
    requires key != "" && '/' !in key
    ensures Segments("/" + key) == [key]
  {
    assert "/" + key == [] + ['/'] + key;
    SplitAtFirst([], key, '/');
    SplitNoSeparator(key, '/');
    NonEmptyCons("", [key]);
    NonEmptyCons(key, []);
  }

  /** The segments of "/key/id/rest", where rest is empty or starts a
      further segment: the key, the id, then those of rest. */
  lemma KeyIdPath(key: string, id: string, rest: string)
    requires key != "" && '/' !in key && id != "" && '/' !in id
    requires rest == [] || rest[0] == '/'
    ensures Segments("/" + key + "/" + id + rest) == [key, id] + (if rest == [] then [] else Segments(rest[1..]))
  {
    var tail := id + rest;
    assert "/" + key + "/" + id + rest == [] + ['/'] + (key + ['/'] + tail);
    SplitAtFirst([], key + ['/'] + tail, '/');
    SplitAtFirst(key, tail, '/');
    var more := if rest == [] then [] else Split(rest[1..], '/');
    if rest == [] {
      assert tail == id;
      SplitNoSeparator(id, '/');
    } else {
      assert tail == id + ['/'] + rest[1..];
      SplitAtFirst(id, rest[1..], '/');
    }
    assert Split(tail, '/') == [id] + more;
    NonEmptyCons("", [key] + ([id] + more));
    NonEmptyCons(key, [id] + more);
    NonEmptyCons(id, more);
    assert [key] + ([id] + NonEmpty(more)) == [key, id] + NonEmpty(more);
  }

  /** The request information of "/key/id/rest": the key "/key", and the
      id as second segment. */
  lemma KeyIdInfo(m: Method, key: string, id: string, rest: string)
    requires key != "" && '/' !in key && id != "" && '/' !in id
    requires rest == [] || rest[0] == '/'
    ensures var info := GetRequestInfo(m, "/" + key + "/" + id + rest);
      info.httpMethod == m && info.path == "/" + key && |info.pathSplited| > 1 && info.pathSplited[1] == id
  {
    KeyIdPath(key, id, rest);
    RequestInfoKey(m, "/" + key + "/" + id + rest);
  }

  /** The request information of "/key": the key "/key" and no id. */
  lemma KeyInfo(m: Method, key: string)
    requires key != "" && '/' !in key
    ensures var info := GetRequestInfo(m, "/" + key);
      info.httpMethod == m && info.path == "/" + key && |info.pathSplited| == 1
  {
    KeyPath(key);
    RequestInfoKey(m, "/" + key);
  }

  /** From the raw path: "/task/<id>" with PUT or DELETE reaches the task
      handler with that id, whatever follows after a further '/'; "/task"
      alone falls through. */
  lemma DispatchTask(id: string, rest: string)
    requires id != "" && '/' !in id
    requires rest == [] || rest[0] == '/'
    ensures Dispatch(Put, "/task/" + id + rest) == UpdateTaskRoute(id)
    ensures Dispatch(Delete, "/task/" + id + rest) == DeleteTaskRoute(id)
    ensures Dispatch(Put, "/task") == Respond(ErrorResponse(NoRoute, None))
  {
    assert "/task/" + id + rest == "/" + "task" + "/" + id + rest;
    KeyIdInfo(Put, "task", id, rest);
    KeyIdInfo(Delete, "task", id, rest);
    assert "/task" == "/" + "task";
    KeyInfo(Put, "task");
  }

  /** From the raw path: "/user/<id>" with GET, PUT or DELETE reaches the
      user handler with that id; GET "/users" lists everyone. */
  lemma DispatchUser(id: string, rest: string)
    requires id != "" && '/' !in id
    requires rest == [] || rest[0] == '/'
    ensures Dispatch(Get, "/user/" + id + rest) == ListByIdRoute(id)
    ensures Dispatch(Put, "/user/" + id + rest) == UpdateUserRoute(id)
    ensures Dispatch(Delete, "/user/" + id + rest) == DeleteUserRoute(id)
    ensures Dispatch(Get, "/users") == ListAllUsersRoute
  {
    assert "/user/" + id + rest == "/" + "user" + "/" + id + rest;
    KeyIdInfo(Get, "user", id, rest);
    KeyIdInfo(Put, "user", id, rest);
    KeyIdInfo(Delete, "user", id, rest);
    assert "/users" == "/" + "users";
    KeyInfo(Get, "users");
  }
}
