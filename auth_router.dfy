/**
 * The auth router: the `authenticateJWT` bearer gate and the route table
 * that puts it in front of `/edit`.
 */
module AuthRouter {
  import opened Wrappers
  import opened Text
  import opened Http
  import opened Primitives
  import opened UserModel
  import opened Store
  import opened AuthController

  // ---------------------------------------------------------------------
  // Bearer gate
  // ---------------------------------------------------------------------

  /** `const [authenticationScheme, token] = authorization.split(' ')`; a missing second part is `None`. */
  function ParseAuthorization(header: string): (string, Option<string>) {
    var parts := Split(header, ' ');
    (parts[0], if |parts| > 1 then Some(parts[1]) else None)
  }

  /** What the gate does: call `next()` with `req.user` set, or `next(err)`. */
  datatype GateResult = Proceed(user: AuthUser) | Refuse(err: Error)

  /**
   * `authenticateJWT`. A missing header makes the destructuring throw, a
   * scheme other than `Bearer` throws before the token is looked at, and a
   * missing or unverifiable token makes `jwt.verify` throw; each of these
   * is caught and becomes a 401.
   */
  function AuthenticateJwt(authorization: Option<string>, c: Crypto): (g: GateResult)
    ensures g.Proceed? <==>
      && authorization.Some?
      && (authorization.value == "Bearer" || (|authorization.value| >= 7 && authorization.value[..7] == "Bearer "))
      && ParseAuthorization(authorization.value).1.Some?
      && c.verify(ParseAuthorization(authorization.value).1.value).Some?
    ensures g.Proceed? ==> g.user == AuthUser(c.verify(ParseAuthorization(authorization.value).1.value).value.id)
    ensures g.Refuse? ==> g.err == CreateError(Unauthorized)
  {
    match authorization
    case None => Refuse(CreateError(Unauthorized))
    case Some(header) =>
      BearerScheme(header);
      var (scheme, token) := ParseAuthorization(header);
      if scheme != "Bearer" then Refuse(CreateError(Unauthorized))
      else if token.None? then Refuse(CreateError(Unauthorized))
      else match c.verify(token.value)
        case None => Refuse(CreateError(Unauthorized))
        case Some(claims) => Proceed(AuthUser(claims.id))
  }

  /** The scheme is `Bearer` exactly when the header is `Bearer` or starts with `Bearer `. */
  lemma BearerScheme(header: string)
    ensures ParseAuthorization(header).0 == "Bearer" <==>
      header == "Bearer" || (|header| >= 7 && header[..7] == "Bearer ")
  {
    SplitHead(header, ' ');
    var h := Split(header, ' ')[0];
    BearerHeadOnlyIf(header, h);
    if header == "Bearer" || (|header| >= 7 && header[..7] == "Bearer ") {
      BearerHeadIf(header, h);
    }
  }

  /** A first part `Bearer` means the header is `Bearer` or starts with `Bearer `. */
  lemma BearerHeadOnlyIf(header: string, h: string)
    requires |h| <= |header| && h == header[..|h|] && (|h| == |header| || header[|h|] == ' ')
    ensures h == "Bearer" ==> header == "Bearer" || (|header| >= 7 && header[..7] == "Bearer ")
  {
    if h == "Bearer" {
      assert header[..6] == "Bearer";
      if |header| > 6 {
        assert header[..7] == header[..6] + [' '];
      }
    }
  }

  /** A header `Bearer` or starting with `Bearer ` has first part `Bearer`. */
  lemma BearerHeadIf(header: string, h: string)
    requires |h| <= |header| && h == header[..|h|] && ' ' !in h && (|h| == |header| || header[|h|] == ' ')
    requires header == "Bearer" || (|header| >= 7 && header[..7] == "Bearer ")
    ensures h == "Bearer"
  {
    assert forall k :: 0 <= k < 6 ==> header[k] == "Bearer"[k];
    assert |header| > 6 ==> header[6] == ' ';
    assert |h| == 6;
  }

  /** `Bearer <token>` with a token free of spaces yields that token. */
  lemma BearerToken(token: string)
    requires ' ' !in token
    ensures ParseAuthorization("Bearer " + token) == ("Bearer", Some(token))
  {
    var header := "Bearer " + token;
    assert header[..7] == "Bearer ";
    BearerScheme(header);
    SplitHead(header, ' ');
    assert |Split(header, ' ')| > 1 by {
      assert header[6] == ' ';
    }
    SplitTail(header, ' ');
    assert |Split(header, ' ')[0]| == 6;
    assert header[7..] == token;
    SplitHead(token, ' ');
    var t := Split(token, ' ')[0];
    assert |t| == |token|;
    var parts := Split(header, ' ');
    assert parts[1] == parts[1..][0] == t;
    assert t == token;
    assert ParseAuthorization(header) == (parts[0], Some(parts[1]));
  }

  /**
   * The gate lets a request through exactly when the header has scheme
   * `Bearer` and a token that verifies, and then sets `req.user` to exactly
   * `{ id }` of the token's claims. Every refusal is the same 401 error.
   */
  lemma GateIff(authorization: Option<string>, c: Crypto)
    ensures var g := AuthenticateJwt(authorization, c);
      && (g.Proceed? <==>
           && authorization.Some?
           && ParseAuthorization(authorization.value).0 == "Bearer"
           && ParseAuthorization(authorization.value).1.Some?
           && c.verify(ParseAuthorization(authorization.value).1.value).Some?)
      && (g.Proceed? ==> g.user == AuthUser(c.verify(ParseAuthorization(authorization.value).1.value).value.id))
      && (g.Refuse? ==> g.err == CreateError(Unauthorized))
  {
  }

  /**
   * A missing header or a scheme other than `Bearer` is refused before any
   * token is verified: the verifier in use makes no difference.
   */
  lemma SchemeCheckedBeforeVerify(authorization: Option<string>, c1: Crypto, c2: Crypto)
    requires authorization.None? || ParseAuthorization(authorization.value).0 != "Bearer"
    ensures AuthenticateJwt(authorization, c1) == AuthenticateJwt(authorization, c2)
      == Refuse(CreateError(Unauthorized))
  {
  }

  // ---------------------------------------------------------------------
  // Routes
  // ---------------------------------------------------------------------

  datatype Handler = LoginHandler | RegisterHandler | EditHandler

  /** A route: the HTTP method, the path, whether `authenticateJWT` runs first, and the handler. */
  datatype Route = Route(verb: string, path: string, guarded: bool, handler: Handler)

  /** The router's table, in declaration order. */
  const Routes: seq<Route> := [
    Route("POST", "/login", false, LoginHandler),
    Route("POST", "/register", false, RegisterHandler),
    Route("PATCH", "/edit", true, EditHandler)
  ]

  /** Express matches paths case-insensitively and with an optional trailing slash. */
  predicate PathMatches(requested: string, path: string) {
    ToLower(requested) == path || ToLower(requested) == path + "/"
  }

  /** The first route that matches the request. */
  function MatchRoute(verb: string, requested: string, routes: seq<Route>): (r: Option<Route>)
    ensures r.Some? ==> r.value in routes && r.value.verb == verb && PathMatches(requested, r.value.path)
    ensures r.None? ==> forall i :: 0 <= i < |routes| ==> !(routes[i].verb == verb && PathMatches(requested, routes[i].path))
  {
    if routes == [] then None
    else if routes[0].verb == verb && PathMatches(requested, routes[0].path) then Some(routes[0])
    else MatchRoute(verb, requested, routes[1..])
  }

  /** A request as the router sees it: method, path, `Authorization` header and JSON body. */
  datatype Request = Request(verb: string, path: string, authorization: Option<string>, body: Fields)

  /**
   * A handler run on a request. `editPatch` reads `req.user.id`; were it
   * reached without `req.user`, that read would throw inside its `try`.
   */
  function RunHandler(h: Handler, db: Db, user: Option<AuthUser>, body: Fields, c: Crypto): (Db, Outcome) {
    match h
    case LoginHandler => (db, LoginResult(db, body, c))
    case RegisterHandler => RegisterResult(db, body, c)
    case EditHandler =>
      if user.None? then (db, Next(CreateError(BadRequest))) else EditResult(db, user.value, body, c)
  }

  /** Routing a request: `None` when no route of this router matches it. */
  function DispatchResult(db: Db, req: Request, c: Crypto): (Db, Option<Outcome>) {
    match MatchRoute(req.verb, req.path, Routes)
    case None => (db, None)
    case Some(route) =>
      if !route.guarded then
        var (db', out) := RunHandler(route.handler, db, None, req.body, c);
        (db', Some(out))
      else match AuthenticateJwt(req.authorization, c)
        case Refuse(err) => (db, Some(Next(err)))
        case Proceed(user) =>
          var (db', out) := RunHandler(route.handler, db, Some(user), req.body, c);
          (db', Some(out))
  }

  /** Only `/edit` is guarded; `/login` and `/register` are not. */
  lemma OnlyEditGuarded()
    ensures forall r :: r in Routes ==> (r.guarded <==> r.handler == EditHandler)
  {
  }

  /**
   * `PATCH /edit` runs the gate first: a refused token is a 401 and the
   * store is not touched; an accepted one runs `editPatch` as the token's user.
   */
  lemma EditIsGated(db: Db, req: Request, c: Crypto)
    requires req.verb == "PATCH" && PathMatches(req.path, "/edit")
    ensures AuthenticateJwt(req.authorization, c).Refuse? ==>
      DispatchResult(db, req, c) == (db, Some(Next(CreateError(Unauthorized))))
    ensures AuthenticateJwt(req.authorization, c).Proceed? ==>
      var (db', out) := EditResult(db, AuthenticateJwt(req.authorization, c).user, req.body, c);
      DispatchResult(db, req, c) == (db', Some(out))
  {
    GateIff(req.authorization, c);
    assert MatchRoute(req.verb, req.path, Routes) == Some(Routes[2]) by {
      assert !PathMatches(req.path, "/login") && !PathMatches(req.path, "/register") by {
        assert ToLower(req.path)[1] == 'e';
      }
    }
  }

  /** `POST /login` and `POST /register` run their handlers whatever the `Authorization` header says. */
  lemma LoginAndRegisterUngated(db: Db, req: Request, c: Crypto)
    requires req.verb == "POST"
    ensures PathMatches(req.path, "/login") ==> DispatchResult(db, req, c) == (db, Some(LoginResult(db, req.body, c)))
    ensures PathMatches(req.path, "/register") ==>
      var (db', out) := RegisterResult(db, req.body, c);
      DispatchResult(db, req, c) == (db', Some(out))
  {
    if PathMatches(req.path, "/register") {
      assert !PathMatches(req.path, "/login") by {
        assert ToLower(req.path)[1] == 'r';
      }
      assert MatchRoute(req.verb, req.path, Routes) == Some(Routes[1]);
    }
  }

  /** The router. */
  method Dispatch(store: UserStore, req: Request, c: Crypto) returns (out: Option<Outcome>)
    requires store.Valid()
    modifies store
    ensures store.Valid()
    ensures (store.State(), out) == DispatchResult(old(store.State()), req, c)
  {
    var route := MatchRoute(req.verb, req.path, Routes);
    if route.None? {
      return None;
    }
    var user: Option<AuthUser> := None;
    if route.value.guarded {
      var gate := AuthenticateJwt(req.authorization, c);
      if gate.Refuse? {
        return Some(Next(gate.err));
      }
      user := Some(gate.user);
    }
    var result: Outcome;
    match route.value.handler {
      case LoginHandler =>
        result := Login(store, req.body, c);
      case RegisterHandler =>
        result := Register(store, req.body, c);
      case EditHandler =>
        if user.None? {
          result := Next(CreateError(BadRequest));
        } else {
          result := EditPatch(store, user.value, req.body, c);
        }
    }
    out := Some(result);
  }
}
