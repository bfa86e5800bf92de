/** The shipped server on whole requests: from the parser's callbacks through the router and
    the service to the bytes of the answer. */
module Site {
  import opened Text
  import Compiler
  import Dispatch
  import RouteTable
  import RequestHandler
  import opened ShippedRoutes
  import opened Bytes
  import opened Uuid
  import opened SessionStore
  import opened RequestAssembly
  import opened AuthService
  import opened Cookies
  import opened AuthApi
  import ResponseFraming

  /** What is given with a request: its method, the fields of its body, the id that would be
      generated, and how hashing, the query and the command fare. */
  datatype Given = Given(
    verb: nat, username: Option<string>, password: Option<string>,
    id: string, hashed: bool, query: Query, reach: Reach)

  datatype Target = ToLogin | ToRegister | ToLogout | ToUser | Nowhere

  /** The shipped route that a URI and method spell. */
  function TargetOf(uri: string, verb: nat): Target
    requires uri != ""
  {
    if Spells(uri, verb, LOGIN) then ToLogin
    else if Spells(uri, verb, REGISTER) then ToRegister
    else if Spells(uri, verb, LOGOUT) then ToLogout
    else if Spells(uri, verb, USER) then ToUser
    else Nowhere
  }

  /** What a request to `target` asks of the service, if anything. */
  function EventOf(target: Target, headers: seq<Header>, given: Given): Option<Event> {
    var sid := SessionOf(headers);
    match target
    case ToLogin => Some(Login(given.username, given.password, given.id, given.query, given.reach))
    case ToRegister => Some(Register(given.username, given.password, given.id, given.hashed, given.query))
    case ToLogout => if sid == "" then None else Some(Logout(sid, given.reach))
    case ToUser => if sid == "" then None else Some(Lookup(sid, given.reach))
    case Nowhere => None
  }

  /** The answer to a request that asked nothing of the service. */
  function Unasked(target: Target): Response {
    if target == Nowhere then ResponseFraming.Stock(404) else UNAUTHORIZED
  }

  function PageOf(target: Target, answer: Answer): Response {
    match target
    case ToLogin => LoginPage(answer)
    case ToRegister => RegisterPage(answer)
    case ToLogout => LogoutPage(answer)
    case ToUser => UserPage(answer)
    case Nowhere => ResponseFraming.Stock(404)
  }

  /** What the site does with one request. */
  function Handled(s: State, uri: string, headers: seq<Header>, given: Given): (State, Response)
    requires uri != ""
  {
    var target := TargetOf(uri, given.verb);
    match EventOf(target, headers, given)
    case None => (s, Unasked(target))
    case Some(e) => (Do(s, e).0, PageOf(target, Do(s, e).1))
  }

  function CallbackOf(target: Target): Dispatch.Answer {
    match target
    case ToLogin => Dispatch.Run(LOGIN.callback, [])
    case ToRegister => Dispatch.Run(REGISTER.callback, [])
    case ToLogout => Dispatch.Run(LOGOUT.callback, [])
    case ToUser => Dispatch.Run(USER.callback, [])
    case Nowhere => Dispatch.NotFound
  }

  /** The router as written sends every request to its target. */
  lemma RouterFindsTarget(uri: string, verb: nat)
    requires uri != "" && verb < 256
    ensures Compiler.Room(Compiler.EMPTY_GRAPH, RouteTable.Register(SETUP))
    ensures Dispatch.Ready(Compiler.Compile(Compiler.EMPTY_GRAPH, RouteTable.Register(SETUP)))
    ensures Dispatch.HandleWritten(Compiler.Compile(Compiler.EMPTY_GRAPH, RouteTable.Register(SETUP)), uri, verb) ==
              CallbackOf(TargetOf(uri, verb))
  {
    hide Spells, RouteTable.Register, Compiler.Compile, Dispatch.HandleWritten;
    ShippedRouter(uri, verb);
    assert LOGIN in SETUP && REGISTER in SETUP && LOGOUT in SETUP && USER in SETUP;
  }

  /** The router holds the shipped routes, compiled. */
  ghost predicate Ships(handler: RequestHandler.RequestHandler)
    reads handler
  {
    && handler.Valid() && Compiler.Room(Compiler.EMPTY_GRAPH, RouteTable.Register(SETUP))
    && handler.Tables() == Compiler.Compile(Compiler.EMPTY_GRAPH, RouteTable.Register(SETUP))
  }

  /** The shipped server in its initial state. */
  method Start() returns (handler: RequestHandler.RequestHandler, auth: Auth)
    ensures fresh(handler) && Ships(handler)
    ensures auth.Valid() && auth.World() == START
    ensures fresh(auth) && fresh(auth.userRepo) && fresh(auth.sessionRepo) && fresh(auth.sessionRepo.client)
  {
    hide RouteTable.Register, Compiler.Compile;
    SetupOrdered();
    RouterFindsTarget("/", 0);
    assert forall r :: r in SETUP ==> r.key.path != "";
    handler := RequestHandler.Boot(SETUP);
    auth := new Auth();
  }

  /** The route that the router picks. */
  method Route(handler: RequestHandler.RequestHandler, uri: string, verb: nat) returns (target: Target)
    requires Ships(handler) && uri != "" && verb < 256
    ensures target == TargetOf(uri, verb)
  {
    hide RouteTable.Register, Compiler.Compile, Dispatch.HandleWritten;
    RouterFindsTarget(uri, verb);
    var answer := handler.HandleRequest(uri, verb);
    target := if answer == CallbackOf(ToLogin) then ToLogin
              else if answer == CallbackOf(ToRegister) then ToRegister
              else if answer == CallbackOf(ToLogout) then ToLogout
              else if answer == CallbackOf(ToUser) then ToUser else Nowhere;
  }

  /** The endpoint that a callback stands for. */
  method RunEndpoint(auth: Auth, target: Target, headers: seq<Header>, given: Given) returns (reply: Response)
    requires auth.Valid() && IsId(given.id)
    modifies auth.userRepo, auth.sessionRepo, auth.sessionRepo.client
    ensures auth.Valid()
    ensures (auth.World(), reply) ==
              match EventOf(target, headers, given)
              case None => (old(auth.World()), Unasked(target))
              case Some(e) => (Do(old(auth.World()), e).0, PageOf(target, Do(old(auth.World()), e).1))
  {
    match target {
      case ToLogin =>
        reply := PostLogin(auth, given.username, given.password, given.id, given.query, given.reach);
      case ToRegister =>
        reply := PostRegister(auth, given.username, given.password, given.id, given.hashed, given.query);
      case ToLogout =>
        reply := PostLogout(auth, headers, given.reach);
      case ToUser =>
        reply := AuthApi.GetUser(auth, headers, given.reach);
      case Nowhere =>
        reply := ResponseFraming.StockResponse(404);
    }
  }

  /** One request, however it is cut: assembled, routed, answered, and written out. */
  method Serve(handler: RequestHandler.RequestHandler, auth: Auth, r: CutRequest, given: Given)
    returns (buffers: seq<string>)
    requires Ships(handler) && auth.Valid() && Flat(r.uri) != "" && given.verb < 256 && IsId(given.id)
    modifies auth.userRepo, auth.sessionRepo, auth.sessionRepo.client
    ensures auth.Valid()
    ensures
      var (after, reply) := Handled(old(auth.World()), Flat(r.uri), AllHeaders(r), given);
      auth.World() == after && ResponseFraming.Concat(buffers) == ResponseFraming.Wire(reply)
  {
    hide Ships, TargetOf, EventOf, PageOf, Do;
    AssembledWhole(r);
    var request := Assemble(Emit(r));
    var target := Route(handler, request.uri, given.verb);
    var reply := RunEndpoint(auth, target, request.headers, given);
    buffers := ResponseFraming.ToBuffers(reply);
  }

  lemma OwnId(s: State, given: Given)
    ensures
      var answer := Do(s, Login(given.username, given.password, given.id, given.query, given.reach)).1;
      answer.LoggedIn? ==> answer.sid == given.id
  {
  }

  /** Every reply can be told apart from its head. */
  lemma RepliesFramed(s: State, uri: string, headers: seq<Header>, given: Given)
    requires uri != "" && IsUuid(given.id)
    ensures ResponseFraming.UnbrokenHeaders(Handled(s, uri, headers, given).1.headers)
  {
    hide Do, TargetOf, ResponseFraming.StockContent, ResponseFraming.Decimal;
    CookieUnbroken(given.id);
    OwnId(s, given);
    ResponseFraming.DecimalUnbroken(|ResponseFraming.StockContent(404)|);
    ResponseFraming.NamesUnbroken();
  }

  /** So in the bytes of every reply the first empty line ends the head, and what follows it is
      the content whose length the last line of the head announces. */
  lemma WireFramed(s: State, uri: string, headers: seq<Header>, given: Given)
    requires uri != "" && IsUuid(given.id)
    ensures
      var reply := Handled(s, uri, headers, given).1;
      var ls, bytes := ResponseFraming.HeadLines(reply), ResponseFraming.Wire(reply);
      var end := |ResponseFraming.Lines(ls)| - 2;
      && end >= 0 && ResponseFraming.BlankAt(bytes, end)
      && (forall p :: 0 <= p < end ==> !ResponseFraming.BlankAt(bytes, p))
      && bytes[end + 4..] == reply.content
      && ls[|ls| - 1] == "Content-Length: " + ResponseFraming.Decimal(|reply.content|)
      && ResponseFraming.Number(ResponseFraming.Decimal(|reply.content|)) == |reply.content|
  {
    hide Handled, ResponseFraming.Wire, ResponseFraming.Lines, ResponseFraming.Decimal;
    RepliesFramed(s, uri, headers, given);
    ResponseFraming.Framing(Handled(s, uri, headers, given).1);
    assert ResponseFraming.LENGTH_NAME + ResponseFraming.SEPARATOR == "Content-Length: ";
  }

  // ----- whole runs of the site

  /** A request arrives, or time passes. */
  datatype Turn = Request(r: CutRequest, given: Given) | Wait(d: nat)

  predicate Servable(turn: Turn) {
    turn.Request? ==> Flat(turn.r.uri) != "" && turn.given.verb < 256 && |turn.given.id| == SIZE && NulFree(turn.given.id)
  }

  /** What one turn asks of the service. */
  function Asks(turn: Turn): seq<Event>
    requires Servable(turn)
  {
    match turn
    case Wait(d) => [Tick(d)]
    case Request(r, given) =>
      match EventOf(TargetOf(Flat(r.uri), given.verb), AllHeaders(r), given)
      case None => []
      case Some(e) => [e]
  }

  function Events(turns: seq<Turn>): seq<Event>
    requires forall i :: 0 <= i < |turns| ==> Servable(turns[i])
  {
    if turns == [] then [] else Events(turns[..|turns| - 1]) + Asks(turns[|turns| - 1])
  }

  lemma EventsNext(turns: seq<Turn>, i: nat)
    requires i < |turns| && forall i :: 0 <= i < |turns| ==> Servable(turns[i])
    ensures Events(turns[..i + 1]) == Events(turns[..i]) + Asks(turns[i])
  {
    assert turns[..i + 1][..i] == turns[..i];
  }

  lemma AfterAsks(es: seq<Event>, turn: Turn)
    requires Servable(turn)
    ensures turn.Request? ==>
              After(es + Asks(turn)) == Handled(After(es), Flat(turn.r.uri), AllHeaders(turn.r), turn.given).0
    ensures turn.Wait? ==> After(es + Asks(turn)) == Do(After(es), Tick(turn.d)).0
  {
    if Asks(turn) == [] {
      assert es + Asks(turn) == es;
    } else {
      assert (es + Asks(turn))[..|es|] == es;
    }
  }

  lemma NothingAsked()
    ensures After(Events([])) == START
  {
  }

  /** One turn, after the events `es`. */
  method TakeTurn(handler: RequestHandler.RequestHandler, auth: Auth, turn: Turn, ghost es: seq<Event>)
    requires Ships(handler) && Servable(turn) && auth.Valid() && auth.World() == After(es)
    modifies auth.userRepo, auth.sessionRepo, auth.sessionRepo.client
    ensures auth.Valid() && auth.World() == After(es + Asks(turn))
  {
    hide Ships, Handled, Asks, Do;
    AfterAsks(es, turn);
    match turn {
      case Request(r, given) =>
        var buffers := Serve(handler, auth, r, given);
      case Wait(d) =>
        auth.Tick(d);
    }
  }

  /** After any run of requests and waiting, the service is in the state that the events asked
      of it lead to. */
  method Live(turns: seq<Turn>) returns (auth: Auth)
    requires forall i :: 0 <= i < |turns| ==> Servable(turns[i])
    ensures auth.Valid() && auth.World() == After(Events(turns))
  {
    hide Ships, Asks, Events, After, Do;
    var handler;
    handler, auth := Start();
    NothingAsked();
    assert turns[..0] == [];
    var i := 0;
    while i < |turns|
      invariant i <= |turns| && auth.Valid() && auth.World() == After(Events(turns[..i]))
      invariant fresh(handler) && Ships(handler)
      invariant fresh(auth.userRepo) && fresh(auth.sessionRepo) && fresh(auth.sessionRepo.client)
    {
      hide *;
      EventsNext(turns, i);
      TakeTurn(handler, auth, turns[i], Events(turns[..i]));
      i := i + 1;
    }
    assert turns[..i] == turns;
  }

  // ----- what each request is answered, in terms of the run

  /** The request has this path, perhaps with a slash behind it, and this method. */
  predicate Requests(r: CutRequest, given: Given, path: string, verb: nat) {
    (Flat(r.uri) == path || Flat(r.uri) == path + "/") && given.verb == verb
  }

  /** The request sends the id back as the first pair of its first cookie header. */
  ghost predicate Carries(r: CutRequest, sid: string) {
    exists h: nat, rest: string ::
      && h < |r.headers|
      && SameName(Flat(r.headers[h].name), "cookie") && Flat(r.headers[h].value) == "rp-session=" + sid + rest
      && forall i :: 0 <= i < h ==> !SameName(Flat(r.headers[i].name), "cookie")
  }

  lemma CarriedIsRead(r: CutRequest, sid: string)
    requires IsUuid(sid) && Carries(r, sid)
    ensures SessionOf(AllHeaders(r)) == sid
  {
    var h: nat, rest: string :|
      && h < |r.headers|
      && SameName(Flat(r.headers[h].name), "cookie") && Flat(r.headers[h].value) == "rp-session=" + sid + rest
      && forall i :: 0 <= i < h ==> !SameName(Flat(r.headers[i].name), "cookie");
    LoginReachesLogout(sid, r, h, rest);
    AssembledWhole(r);
  }

  lemma Spelled(r: CutRequest, given: Given, path: string, verb: nat)
    requires Requests(r, given, path, verb)
    requires |path| > 1 && path[0] == '/' && path[|path| - 1] != '/'
    ensures Flat(r.uri) != "" && "/" + Dispatch.UriBody(Flat(r.uri)) == path
  {
    hide Dispatch.UriBody, Flat;
    Dispatch.BodyOfPath(path);
    assert path == "/" + path[1..];
  }

  lemma LoginTarget(r: CutRequest, given: Given)
    requires Requests(r, given, "/api/auth/login", 3)
    ensures Flat(r.uri) != "" && TargetOf(Flat(r.uri), given.verb) == ToLogin
  {
    hide Dispatch.UriBody, Flat;
    Spelled(r, given, "/api/auth/login", 3);
  }

  lemma RegisterTarget(r: CutRequest, given: Given)
    requires Requests(r, given, "/api/auth/register", 3)
    ensures Flat(r.uri) != "" && TargetOf(Flat(r.uri), given.verb) == ToRegister
  {
    hide Dispatch.UriBody, Flat;
    Spelled(r, given, "/api/auth/register", 3);
  }

  lemma LogoutTarget(r: CutRequest, given: Given)
    requires Requests(r, given, "/api/auth/logout", 3)
    ensures Flat(r.uri) != "" && TargetOf(Flat(r.uri), given.verb) == ToLogout
  {
    hide Dispatch.UriBody, Flat;
    Spelled(r, given, "/api/auth/logout", 3);
  }

  lemma UserTarget(r: CutRequest, given: Given)
    requires Requests(r, given, "/api/user", 1)
    ensures Flat(r.uri) != "" && TargetOf(Flat(r.uri), given.verb) == ToUser
  {
    hide Dispatch.UriBody, Flat;
    Spelled(r, given, "/api/user", 1);
  }

  /** No other path is a target. */
  lemma NowhereIff(uri: string, verb: nat)
    requires uri != ""
    ensures
      var path := "/" + Dispatch.UriBody(uri);
      TargetOf(uri, verb) == Nowhere <==>
        && (verb == 3 ==> path != "/api/auth/login" && path != "/api/auth/register" && path != "/api/auth/logout")
        && (verb == 1 ==> path != "/api/user")
  {
    hide Dispatch.UriBody;
  }

  /** Registration answers 200 exactly when the fields are accepted, the name is new and fits
      its column, and hash and query succeed; then the account is in. */
  lemma RegisterReplied(es: seq<Event>, r: CutRequest, given: Given)
    requires Requests(r, given, "/api/auth/register", 3)
    ensures
      var (after, reply) := Handled(After(es), Flat(r.uri), AllHeaders(r), given);
      var accepted :=
        && given.username.Some? && 1 <= |CStr(given.username.value)| <= 60
        && given.password.Some? && 8 <= |CStr(given.password.value)| <= 60
        && given.hashed && given.query == Ran
        && FitsColumn(CStr(given.username.value)) && Registered(es, CStr(given.username.value)) == None;
      && reply == (if accepted then ResponseFraming.Response(200, [], "Registered")
                   else ResponseFraming.Response(400, [], "Bad Request"))
      && (accepted ==>
            && CStr(given.username.value) in after.users
            && after.users[CStr(given.username.value)] == Account(given.id, HashOf(CStr(given.password.value))))
  {
    hide TargetOf, Do, After, FitsColumn, Registered, CStr;
    RegisterTarget(r, given);
    var e := Register(given.username, given.password, given.id, given.hashed, given.query);
    RegisterTold(es, e);
    AfterOne(es, e);
    if Do(After(es), e).1 == Done(OK) {
      RegisterEnters(es, e);
    }
  }

  /** Login answers 200 with the cookie exactly when the name is registered with that
      password, the query ran, and the store answered the write. */
  lemma LoginReplied(es: seq<Event>, r: CutRequest, given: Given)
    requires Requests(r, given, "/api/auth/login", 3)
    ensures
      var reply := Handled(After(es), Flat(r.uri), AllHeaders(r), given).1;
      var accepted :=
        && given.username.Some? && CStr(given.username.value) != ""
        && given.password.Some? && CStr(given.password.value) != ""
        && given.query == Ran && (given.reach == Served || given.reach == Refused)
        && Registered(es, CStr(given.username.value)).Some?
        && Registered(es, CStr(given.username.value)).value.password == HashOf(Take(CStr(given.password.value), 60));
      reply == if accepted
               then ResponseFraming.Response(200, [Header("Set-Cookie", "rp-session=" + given.id + ";")], "Logged In")
               else ResponseFraming.Response(401, [], "Auth Failed")
  {
    hide TargetOf, Do, After, Registered, CStr, Take;
    LoginTarget(r, given);
    LoginTold(es, Login(given.username, given.password, given.id, given.query, given.reach));
  }

  /** Logout answers 401 without an id, 200 for an id that is current, and 400 for any other. */
  lemma LogoutReplied(es: seq<Event>, r: CutRequest, given: Given)
    requires Requests(r, given, "/api/auth/logout", 3)
    ensures
      var (after, reply) := Handled(After(es), Flat(r.uri), AllHeaders(r), given);
      var sid := SessionOf(AllHeaders(r));
      && reply == (if sid == "" then ResponseFraming.Response(401, [], "Unauthorized")
                   else if given.reach == Served && Current(es, UuidText(sid))
                   then ResponseFraming.Response(200, [], "Logged out")
                   else ResponseFraming.Response(400, [], "Bad Request"))
      && (sid == "" ==> after == After(es))
  {
    hide TargetOf, Do, After, Current, SessionOf, UuidText;
    LogoutTarget(r, given);
    LogoutTold(es, SessionOf(AllHeaders(r)), given.reach);
  }

  /** The user's page shows who holds the id that is current, and is unauthorized otherwise. */
  lemma UserReplied(es: seq<Event>, r: CutRequest, given: Given)
    requires Requests(r, given, "/api/user", 1)
    ensures
      var reply := Handled(After(es), Flat(r.uri), AllHeaders(r), given).1;
      var sid := SessionOf(AllHeaders(r));
      if sid != "" && given.reach == Served && Current(es, UuidText(sid)) then
        var person := Holder(es, UuidText(sid)).value.person;
        reply == ResponseFraming.Response(200, [], "[" + person.id + "]: " + person.username)
      else reply == ResponseFraming.Response(401, [], "Unauthorized")
  {
    hide TargetOf, Do, After, Holder, SessionOf, UuidText;
    UserTarget(r, given);
    LookupTold(es, SessionOf(AllHeaders(r)), given.reach);
  }

  /** Any other request is not found, and asks nothing of the service. */
  lemma NowhereReplied(s: State, uri: string, headers: seq<Header>, given: Given)
    requires uri != "" && TargetOf(uri, given.verb) == Nowhere
    ensures
      var (after, reply) := Handled(s, uri, headers, given);
      && after == s && reply.status == 404
      && reply.content ==
           "<html><head><title>" + "Not Found" + "</title></head><body><h1>" + "404 Not Found" + "</h1></body></html>"
      && |reply.headers| == 2 && reply.headers[1] == Header("Content-Type", "text/html")
      && reply.headers[0].name == "Content-Length" && ResponseFraming.Number(reply.headers[0].value) == |reply.content|
  {
    hide TargetOf, ResponseFraming.Decimal, ResponseFraming.Number, ResponseFraming.StockContent;
    ResponseFraming.ErrorPages();
    ResponseFraming.DecimalRoundTrip(|ResponseFraming.StockContent(404)|);
  }

  /** Whoever registers with success can log in with the same name and password, and is given
      a cookie. */
  lemma RegisterThenLogin(es: seq<Event>, r: CutRequest, given: Given, q: CutRequest, given': Given)
    requires Requests(r, given, "/api/auth/register", 3) && Requests(q, given', "/api/auth/login", 3)
    requires Handled(After(es), Flat(r.uri), AllHeaders(r), given).1.status == 200
    requires given'.username == given.username && given'.password == given.password
    requires given'.query == Ran && given'.reach == Served
    ensures
      var after := Handled(After(es), Flat(r.uri), AllHeaders(r), given).0;
      Handled(after, Flat(q.uri), AllHeaders(q), given').1 ==
        ResponseFraming.Response(200, [Header("Set-Cookie", "rp-session=" + given'.id + ";")], "Logged In")
  {
    hide Handled, After, FitsColumn, Registered, CStr, Take, TargetOf;
    RegisterTarget(r, given);
    RegisterReplied(es, r, given);
    var e := Register(given.username, given.password, given.id, given.hashed, given.query);
    HandledIs(After(es), r, given, e);
    AfterOne(es, e);
    UsersAreRegistered(es + [e], CStr(given.username.value));
    LoginReplied(es + [e], q, given');
  }

  lemma HandledIs(s: State, r: CutRequest, given: Given, e: Event)
    requires Flat(r.uri) != "" && EventOf(TargetOf(Flat(r.uri), given.verb), AllHeaders(r), given) == Some(e)
    ensures Handled(s, Flat(r.uri), AllHeaders(r), given).0 == Do(s, e).0
  {
  }

  /** Logging out a second time with the same cookie is a bad request. */
  lemma LogoutTwice(es: seq<Event>, r: CutRequest, given: Given)
    requires Requests(r, given, "/api/auth/logout", 3) && given.reach == Served && SessionOf(AllHeaders(r)) != ""
    ensures
      var after := Handled(After(es), Flat(r.uri), AllHeaders(r), given).0;
      Handled(after, Flat(r.uri), AllHeaders(r), given).1 == ResponseFraming.Response(400, [], "Bad Request")
  {
    hide TargetOf, Do, After, SessionOf;
    LogoutTarget(r, given);
    var e := Logout(SessionOf(AllHeaders(r)), Served);
    HandledIs(After(es), r, given, e);
    AfterOne(es, e);
    SecondLogoutTold(es, SessionOf(AllHeaders(r)));
  }

  /** A session over the whole site. After any run, whoever is registered and posts name and
      password gets a cookie; within the hour a request with that cookie shows the user, and a
      logout with it succeeds; after that the cookie is worth nothing. */
  lemma SessionOverSite(es: seq<Event>, login: CutRequest, given: Given, d: nat,
                        user: CutRequest, asUser: Given, logout: CutRequest, asOut: Given)
    requires Requests(login, given, "/api/auth/login", 3)
    requires Requests(user, asUser, "/api/user", 1) && Requests(logout, asOut, "/api/auth/logout", 3)
    requires given.query == Ran && given.reach == asUser.reach == asOut.reach == Served
    requires IsUuid(given.id) && CanLogin(es, given.username, given.password)
    requires Carries(user, given.id) && Carries(logout, given.id) && d < 3600
    ensures
      var (s1, entry) := Handled(After(es), Flat(login.uri), AllHeaders(login), given);
      var s2 := Do(s1, Tick(d)).0;
      var (_, page) := Handled(s2, Flat(user.uri), AllHeaders(user), asUser);
      var (s3, exit) := Handled(s2, Flat(logout.uri), AllHeaders(logout), asOut);
      var (_, late) := Handled(s3, Flat(user.uri), AllHeaders(user), asUser);
      var name := CStr(given.username.value);
      && entry == ResponseFraming.Response(200, [Header("Set-Cookie", "rp-session=" + given.id + ";")], "Logged In")
      && page == ResponseFraming.Response(200, [], "[" + Registered(es, name).value.id + "]: " + name)
      && exit == ResponseFraming.Response(200, [], "Logged out")
      && late == ResponseFraming.Response(401, [], "Unauthorized")
  {
    hide TargetOf, Do, CanLogin;
    LoginTarget(login, given);
    UserTarget(user, asUser);
    LogoutTarget(logout, asOut);
    CarriedIsRead(user, given.id);
    CarriedIsRead(logout, given.id);
    var e := Login(given.username, given.password, given.id, Ran, Served);
    LoginIff(es, e);
    LogoutEndsSession(es, e, AllHeaders(logout), d);
    AfterTwo(es, e, Tick(d));
    AfterOne(es + [e, Tick(d)], Logout(given.id, Served));
  }
}
