/** The endpoints, which read and write the session cookie, and a session from login to logout. */
module AuthApi {
  import opened Text
  import opened Bytes
  import opened Uuid
  import opened SessionStore
  import opened RequestAssembly
  import opened AuthService
  import opened Cookies
  import ResponseFraming

  type Response = ResponseFraming.Response

  function Page(status: nat, content: string): Response {
    ResponseFraming.Response(status, [], content)
  }

  const UNAUTHORIZED := Page(401, "Unauthorized")

  /** The pages, by what the service answered. */
  function RegisterPage(answer: Answer): Response {
    if answer == Done(OK) then Page(200, "Registered") else Page(400, "Bad Request")
  }

  function LoginPage(answer: Answer): Response {
    if answer.LoggedIn? then Page(200, "Logged In").(headers := [Header("Set-Cookie", SetCookie(answer.sid))])
    else Page(401, "Auth Failed")
  }

  function LogoutPage(answer: Answer): Response {
    if answer == Done(OK) then Page(200, "Logged out") else Page(400, "Bad Request")
  }

  function UserPage(answer: Answer): Response {
    if answer.FoundUser? then Page(200, "[" + answer.person.id + "]: " + answer.person.username) else UNAUTHORIZED
  }

  /** `post_register` */
  method PostRegister(auth: Auth, username: Option<string>, password: Option<string>, id: string, hashed: bool,
                      query: Query)
    returns (reply: Response)
    requires auth.Valid() && IsId(id)
    modifies auth.userRepo
    ensures auth.Valid()
    ensures
      var (after, answer) := Do(old(auth.World()), Register(username, password, id, hashed, query));
      && auth.World() == after
      && reply == RegisterPage(answer)
  {
    var e := auth.RegisterUser(username, password, id, hashed, query);
    return if e != OK then Page(400, "Bad Request") else Page(200, "Registered");
  }

  /** `post_login`: the session id goes out as a cookie. */
  method PostLogin(auth: Auth, username: Option<string>, password: Option<string>, sid: string, query: Query,
                   reach: Reach)
    returns (reply: Response)
    requires auth.Valid() && IsId(sid)
    modifies auth.sessionRepo, auth.sessionRepo.client
    ensures auth.Valid()
    ensures
      var (after, answer) := Do(old(auth.World()), Event.Login(username, password, sid, query, reach));
      && auth.World() == after
      && reply == LoginPage(answer) && (answer.LoggedIn? ==> answer.sid == sid)
  {
    var r := auth.Login(username, password, sid, query, reach);
    if r.Failure? {
      return Page(401, "Auth Failed");
    }
    var value := COOKIE_NAME;
    value := value + r.value;
    value := value + ";";
    return ResponseFraming.Response(200, [Header("Set-Cookie", value)], "Logged In");
  }

  /** `post_logout`: without a session id in the headers the service is not asked. */
  method PostLogout(auth: Auth, headers: seq<Header>, reach: Reach) returns (reply: Response)
    requires auth.Valid()
    modifies auth.sessionRepo, auth.sessionRepo.client
    ensures auth.Valid()
    ensures
      var sid := SessionOf(headers);
      var (after, answer) := Do(old(auth.World()), Event.Logout(sid, reach));
      && auth.World() == (if sid == "" then old(auth.World()) else after)
      && reply == if sid == "" then UNAUTHORIZED else LogoutPage(answer)
  {
    var sid := FindSession(headers);
    if sid == "" {
      return UNAUTHORIZED;
    }
    var e := auth.Logout(sid, reach);
    return if e != OK then Page(400, "Bad Request") else Page(200, "Logged out");
  }

  /** `get_user` */
  method GetUser(auth: Auth, headers: seq<Header>, reach: Reach) returns (reply: Response)
    requires auth.Valid()
    ensures
      var sid := SessionOf(headers);
      reply == if sid == "" then UNAUTHORIZED else UserPage(Do(auth.World(), Lookup(sid, reach)).1)
  {
    var sid := FindSession(headers);
    if sid == "" {
      return UNAUTHORIZED;
    }
    var r := auth.GetUser(sid, reach);
    if r.Failure? {
      return UNAUTHORIZED;
    }
    var content := "[";
    content := content + r.value.id;
    content := content + "]: ";
    content := content + r.value.username;
    return Page(200, content);
  }

  /** The cookie of a generated id breaks no line, so the reply to a login is framed soundly. */
  lemma CookieUnbroken(sid: string)
    requires IsUuid(sid)
    ensures ResponseFraming.UnbrokenHeaders([Header("Set-Cookie", SetCookie(sid))])
  {
    ResponseFraming.JoinUnbroken(COOKIE_NAME, sid);
    ResponseFraming.JoinUnbroken(COOKIE_NAME + sid, ";");
  }

  /** A session from login to logout, as long as the store serves: within the hour, a request
      that carries the id where the scan reads it shows the page of the user who logged in;
      when it asks to log out it succeeds, and from then on no lookup finds that session. */
  lemma LogoutEndsSession(es: seq<Event>, login: Event, headers: seq<Header>, d: nat)
    requires login.Login? && IsUuid(login.sid) && CanLogin(es, login.username, login.password)
    requires login.query == Ran && login.reach == Served
    requires SessionOf(headers) == login.sid && d < EXPIRY
    ensures
      var inside := es + [login, Tick(d)];
      var sid := SessionOf(headers);
      var name := CStr(login.username.value);
      && UserPage(Do(After(inside), Lookup(sid, Served)).1) ==
           Page(200, "[" + Registered(es, name).value.id + "]: " + name)
      && Do(After(inside), Event.Logout(sid, Served)).1 == Done(OK)
      && Do(After(inside + [Event.Logout(sid, Served)]), Lookup(sid, Served)).1 == Done(VALKEY_TYPE)
  {
    hide Do, After, CStr, CanLogin, LoginError;
    LoginIff(es, login);
    HasName(es, login);
    UsersAreRegistered(es, CStr(login.username.value));
    SessionLife(After(es), login, d);
    AfterTwo(es, login, Tick(d));
    AfterOne(es + [login, Tick(d)], Event.Logout(login.sid, Served));
  }

  lemma HasName(es: seq<Event>, e: Event)
    requires e.Login? && CanLogin(es, e.username, e.password)
    ensures e.username.Some? && Registered(es, CStr(e.username.value)).Some?
  {
  }

  /** The life of one session, on states. */
  lemma SessionLife(s: State, login: Event, d: nat)
    requires login.Login? && IsId(login.sid) && LoginError(s, login) == OK && login.reach == Served && d < EXPIRY
    ensures
      var name, sid := CStr(login.username.value), login.sid;
      var inside := Do(Do(s, login).0, Tick(d)).0;
      && name in s.users
      && Do(inside, Lookup(sid, Served)).1 == FoundUser(Person(s.users[name].id, name))
      && Do(inside, Event.Logout(sid, Served)).1 == Done(OK)
      && Do(Do(inside, Event.Logout(sid, Served)).0, Lookup(sid, Served)).1 == Done(VALKEY_TYPE)
  {
    hide CStr, UuidText;
    IdText(login.sid);
  }
}
