/** The Lambda entry point: the request's method and path, joined by one
    space, are matched exactly against four route keys; everything else is
    answered 405. */
module Router {
  import opened Records
  import opened Json
  import opened Responses
  import opened Table
  import opened Handlers

  /** The parts of an API Gateway HTTP request the handler reads. */
  datatype HttpRequest = HttpRequest(httpMethod: string, path: string, body: Body)

  const UsersPath := "/api/to-do-list/mypost/users"
  const HealthPath := "/api/to-do-list/mypost/health"

  datatype Route = CreateRoute | HealthRoute | LoginRoute | PreflightRoute | NotAllowed

  /** The four route keys, as the switch spells them. */
  const CreateKey := "POST /api/to-do-list/mypost/users"
  const HealthKey := "HEAD /api/to-do-list/mypost/health"
  const LoginKey := "GET /api/to-do-list/mypost/users"
  const PreflightKey := "OPTIONS /api/to-do-list/mypost/users"

  /** The switch on `method + " " + path`. */
  function RouteOf(httpMethod: string, path: string): (r: Route)
    ensures r != NotAllowed <==> httpMethod + " " + path in {CreateKey, HealthKey, LoginKey, PreflightKey}
    ensures r == CreateRoute <==> httpMethod + " " + path == CreateKey
    ensures r == HealthRoute <==> httpMethod + " " + path == HealthKey
    ensures r == LoginRoute <==> httpMethod + " " + path == LoginKey
    ensures r == PreflightRoute <==> httpMethod + " " + path == PreflightKey
  {
    var key := httpMethod + " " + path;
    if key == CreateKey then CreateRoute
    else if key == HealthKey then HealthRoute
    else if key == LoginKey then LoginRoute
    else if key == PreflightKey then PreflightRoute
    else NotAllowed
  }

  predicate NoSpace(s: string)
  {
    forall i :: 0 <= i < |s| ==> s[i] != ' '
  }

  /** `key` is `routeMethod`, one space, then `routePath`. */
  predicate IsJoin(key: string, routeMethod: string, routePath: string)
  {
    key == routeMethod + " " + routePath && NoSpace(routeMethod) && NoSpace(routePath)
  }

  lemma CreateKeySplit()
    ensures IsJoin(CreateKey, "POST", UsersPath)
  {
    var joined := "POST" + " " + UsersPath;
    forall i | 0 <= i < |CreateKey| ensures CreateKey[i] == joined[i] {
      if i >= 5 { assert joined[i] == UsersPath[i - 5]; }
    }
  }

  lemma HealthKeySplit()
    ensures IsJoin(HealthKey, "HEAD", HealthPath)
  {
    var joined := "HEAD" + " " + HealthPath;
    forall i | 0 <= i < |HealthKey| ensures HealthKey[i] == joined[i] {
      if i >= 5 { assert joined[i] == HealthPath[i - 5]; }
    }
  }

  lemma LoginKeySplit()
    ensures IsJoin(LoginKey, "GET", UsersPath)
  {
    var joined := "GET" + " " + UsersPath;
    forall i | 0 <= i < |LoginKey| ensures LoginKey[i] == joined[i] {
      if i >= 4 { assert joined[i] == UsersPath[i - 4]; }
    }
  }

  lemma PreflightKeySplit()
    ensures IsJoin(PreflightKey, "OPTIONS", UsersPath)
  {
    var joined := "OPTIONS" + " " + UsersPath;
    forall i | 0 <= i < |PreflightKey| ensures PreflightKey[i] == joined[i] {
      if i >= 8 { assert joined[i] == UsersPath[i - 8]; }
    }
  }

  /** A request reaches a route exactly when its method and path are that
      route's method and path. */
  lemma RouteOfIff(httpMethod: string, path: string)
    ensures RouteOf(httpMethod, path) == CreateRoute <==> httpMethod == "POST" && path == UsersPath
    ensures RouteOf(httpMethod, path) == HealthRoute <==> httpMethod == "HEAD" && path == HealthPath
    ensures RouteOf(httpMethod, path) == LoginRoute <==> httpMethod == "GET" && path == UsersPath
    ensures RouteOf(httpMethod, path) == PreflightRoute <==> httpMethod == "OPTIONS" && path == UsersPath
  {
    CreateKeySplit();
    HealthKeySplit();
    LoginKeySplit();
    PreflightKeySplit();
    KeySplits(httpMethod, path, "POST", UsersPath);
    KeySplits(httpMethod, path, "HEAD", HealthPath);
    KeySplits(httpMethod, path, "GET", UsersPath);
    KeySplits(httpMethod, path, "OPTIONS", UsersPath);
  }

  /** Joining with a space loses nothing when the route's method and path
      contain no space: the joined key determines both parts, whatever
      spaces the request's own method or path contain. */
  lemma KeySplits(m: string, p: string, routeMethod: string, routePath: string)
    requires NoSpace(routeMethod) && NoSpace(routePath)
    ensures m + " " + p == routeMethod + " " + routePath <==> m == routeMethod && p == routePath
  {
    var key := routeMethod + " " + routePath;
    if m + " " + p == key {
      assert key[|m|] == ' ';
      forall i | 0 <= i < |key| && i != |routeMethod|
        ensures key[i] != ' '
      {
        if i < |routeMethod| {
          assert key[i] == routeMethod[i];
        } else {
          assert key[i] == routePath[i - |routeMethod| - 1];
        }
      }
      assert |m| == |routeMethod|;
      assert m == key[..|m|];
      assert p == key[|m| + 1..];
    }
  }

  /** Exactly four (httpMethod, path) pairs are dispatched to a handler. */
  lemma DispatchedPairs(httpMethod: string, path: string)
    ensures RouteOf(httpMethod, path) != NotAllowed <==>
      (httpMethod, path) in {("POST", UsersPath), ("HEAD", HealthPath), ("GET", UsersPath), ("OPTIONS", UsersPath)}
  {
    RouteOfIff(httpMethod, path);
  }

  /** handler: route, then delegate to the operation or answer directly. */
  function Handler(req: HttpRequest, store: Store, backend: Backend): (r: Reply)
    requires IsScanOrder(store, backend.scanOrder)
    // a pair outside the four routes is 405, whatever the body
    ensures RouteOf(req.httpMethod, req.path) == NotAllowed ==>
      r == Reply(Response(405, Error("method not allowed")), store)
    ensures req.httpMethod == "HEAD" && req.path == HealthPath ==>
      r.response.statusCode == 204 && r.store == store
    ensures req.httpMethod == "OPTIONS" && req.path == UsersPath ==>
      r == Reply(Response(200, Message("ok")), store)
    // only a 201 from POST on the users path writes to the table
    ensures r.store != store ==> req.httpMethod == "POST" && req.path == UsersPath && r.response.statusCode == 201
    ensures req.httpMethod == "POST" && req.path == UsersPath ==> r == CreateUser(req.body, store, backend)
    ensures req.httpMethod == "GET" && req.path == UsersPath ==> r == LoginUser(req.body, store, backend)
    // every reply carries the fixed header set
    ensures r.response.headers == FixedHeaders
  {
    RouteOfIff(req.httpMethod, req.path);
    match RouteOf(req.httpMethod, req.path)
    case CreateRoute => CreateUser(req.body, store, backend)
    case HealthRoute => HandleHello(store)
    case LoginRoute => LoginUser(req.body, store, backend)
    case PreflightRoute => Reply(Response(200, Message("ok")), store)
    case NotAllowed => Reply(Response(405, Error("method not allowed")), store)
  }

  /** The 405 answer depends only on method and path: two requests that
      differ in their bodies get the same reply. */
  lemma NotAllowedIgnoresBody(httpMethod: string, path: string, b1: Body, b2: Body, store: Store, backend: Backend)
    requires IsScanOrder(store, backend.scanOrder)
    requires RouteOf(httpMethod, path) == NotAllowed
    ensures Handler(HttpRequest(httpMethod, path, b1), store, backend) == Handler(HttpRequest(httpMethod, path, b2), store, backend)
    ensures Handler(HttpRequest(httpMethod, path, b1), store, backend).response.statusCode == 405
  {
  }

  /** Every request keeps the store invariant. */
  lemma HandlerPreservesInvariant(req: HttpRequest, store: Store, backend: Backend)
    requires IsScanOrder(store, backend.scanOrder)
    requires Invariant(store)
    ensures Invariant(Handler(req, store, backend).store)
  {
    var r := Handler(req, store, backend);
    if r.store != store {
      var u := TrimUser(DecodeUser(req.body).value);
      PutPreservesInvariant(store, u);
    }
  }
}
