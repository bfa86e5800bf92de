/** Registration, login, logout and lookup over the two repositories, and what a whole run of
    them means for a session. */
module AuthService {
  import opened Text
  import opened Bytes
  import opened Uuid
  import opened SessionStore

  datatype Account = Account(id: string, password: Hash)

  /** The accounts by username, the sessions, and the clock. */
  datatype State = State(users: map<string, Account>, sessions: Sessions, now: nat)

  /** How a query fares at the database. One that was sent may have been applied although its
      result never arrived. */
  datatype Query = Ran | NotConnected | NotPrepared | NotExecuted(applied: bool)

  function QueryError(query: Query): Error {
    match query
    case Ran => OK
    case NotConnected => DB_CONNECTION
    case NotPrepared => DB_PREPARE
    case NotExecuted(_) => DB_EXECUTION
  }

  /** The width of the column that holds usernames, in characters. */
  const COLUMN := 50

  /** The characters of a text in UTF-8: every byte but the continuation bytes. */
  function Characters(s: string): nat {
    if s == "" then 0 else Characters(s[1..]) + if 0x80 <= s[0] as int < 0xC0 then 0 else 1
  }

  predicate FitsColumn(name: string) {
    Characters(name) <= COLUMN
  }

  /** Does an insertion take effect, if its row is acceptable? */
  predicate Inserts(query: Query) {
    query == Ran || query == NotExecuted(true)
  }

  /** What happens at the service. The environment chooses the ids that are generated, whether
      hashing succeeds, and how each query and command fares. */
  datatype Event =
    | Register(username: Option<string>, password: Option<string>, id: string, hashed: bool, query: Query)
    | Login(username: Option<string>, password: Option<string>, sid: string, query: Query, reach: Reach)
    | Logout(sid: string, reach: Reach)
    | Lookup(sid: string, reach: Reach)
    | Tick(d: nat)

  datatype Answer = Done(error: Error) | LoggedIn(sid: string) | FoundUser(person: Person)

  predicate Missing(s: Option<string>) {
    s == None || CStr(s.value) == ""
  }

  /** Where registration stops, or `OK` when it is accepted. */
  function RegisterError(s: State, e: Event): Error
    requires e.Register?
  {
    if CheckUsername(e.username) != OK then CheckUsername(e.username)
    else if CheckPassword(e.password) != OK then CheckPassword(e.password)
    else if !e.hashed then CRYPTO_HASH
    else if e.query.NotConnected? || e.query.NotPrepared? then QueryError(e.query)
    else if !FitsColumn(CStr(e.username.value)) || CStr(e.username.value) in s.users then DB_EXECUTION
    else QueryError(e.query)
  }

  /** Where a login stops before it stores a session, or `OK` when it gets there. */
  function LoginError(s: State, e: Event): Error
    requires e.Login?
  {
    if Missing(e.username) then LOGIN_USERNAME_EMPTY
    else if Missing(e.password) then LOGIN_PASSWORD_EMPTY
    else if e.query != Ran then QueryError(e.query)
    else if CStr(e.username.value) !in s.users then USER_NOT_FOUND
    else if !Verifies(s.users[CStr(e.username.value)].password, e.password.value) then LOGIN_PASSWORD_MISMATCH
    else OK
  }

  /** Is the row of this registration inserted, whatever the caller is told? */
  predicate Enters(s: State, e: Event)
    requires e.Register?
  {
    && CheckUsername(e.username) == OK && CheckPassword(e.password) == OK && e.hashed
    && Inserts(e.query) && FitsColumn(CStr(e.username.value)) && CStr(e.username.value) !in s.users
  }

  /** One request, on the abstract state. */
  function Do(s: State, e: Event): (State, Answer) {
    match e
    case Register(username, password, id, _, _) =>
      (if Enters(s, e) then s.(users := s.users[CStr(username.value) := Account(id, HashOf(CStr(password.value)))])
       else s,
       Done(RegisterError(s, e)))
    case Login(username, _, sid, _, reach) =>
      if LoginError(s, e) != OK then (s, Done(LoginError(s, e)))
      else
        var name := CStr(username.value);
        var session := Session(Person(s.users[name].id, name), s.now + EXPIRY);
        (if Applied(reach) then s.(sessions := s.sessions[sid := session]) else s,
         if SetAnswer(sid, reach).Success? then LoggedIn(sid) else Done(SetAnswer(sid, reach).error))
    case Logout(sid, reach) =>
      var live := IsLive(s.sessions, UuidText(sid), s.now);
      (if Applied(reach) && live then s.(sessions := s.sessions - {UuidText(sid)}) else s,
       Done(RemoveError(live, reach)))
    case Lookup(sid, reach) =>
      if reach == Served && IsLive(s.sessions, UuidText(sid), s.now) then
        (s, FoundUser(s.sessions[UuidText(sid)].person))
      else (s, Done(GetError(reach)))
    case Tick(d) => (s.(now := s.now + d), Done(OK))
  }

  // ----- the service objects

  class UserTable {
    var accounts: map<string, Account>

    constructor ()
      ensures accounts == map[]
    {
      accounts := map[];
    }

    /** `add_user`: the table keeps usernames unique, and refuses those that are too wide. */
    method AddUser(user: User, id: string, query: Query) returns (r: Result<string>)
      modifies this
      ensures
        var bad := user.username in old(accounts) || !FitsColumn(user.username);
        var reached := !query.NotConnected? && !query.NotPrepared?;
        && r == (if query == Ran && !bad then Success(id)
                 else Failure(if reached && bad then DB_EXECUTION else QueryError(query)))
        && accounts == if Inserts(query) && !bad
                       then old(accounts)[user.username := Account(id, user.password)] else old(accounts)
    {
      if query.NotConnected? || query.NotPrepared? {
        return Failure(QueryError(query));
      }
      if user.username in accounts || !FitsColumn(user.username) {
        return Failure(DB_EXECUTION);
      }
      if Inserts(query) {
        accounts := accounts[user.username := Account(id, user.password)];
      }
      return if query == Ran then Success(id) else Failure(QueryError(query));
    }

    method GetUserByUsername(username: string, query: Query) returns (r: Result<User>)
      requires CStr(username) in accounts ==>
                 IsUsername(CStr(username)) && IsId(accounts[CStr(username)].id)
      ensures r.Failure? ==> r.error == if query != Ran then QueryError(query) else USER_NOT_FOUND
      ensures r.Success? <==> query == Ran && CStr(username) in accounts
      ensures r.Success? ==>
                && fresh(r.value) && r.value.username == CStr(username)
                && Account(r.value.id, r.value.password) == accounts[CStr(username)]
    {
      if query != Ran {
        return Failure(QueryError(query));
      }
      if CStr(username) !in accounts {
        return Failure(USER_NOT_FOUND);
      }
      var user := new User();
      IdText(accounts[CStr(username)].id);
      user.SetId(accounts[CStr(username)].id);
      var e := user.SetUsername(Some(username));
      user.SetHashedPassword(accounts[CStr(username)].password);
      return Success(user);
    }
  }

  class Auth {
    const userRepo: UserTable
    const sessionRepo: SessionValkey

    ghost predicate Valid()
      reads this, userRepo, sessionRepo, sessionRepo.client
    {
      && sessionRepo.Valid()
      && forall name :: name in userRepo.accounts ==> IsUsername(name) && IsId(userRepo.accounts[name].id)
    }

    ghost function World(): State
      reads this, userRepo, sessionRepo, sessionRepo.client
    {
      State(userRepo.accounts, sessionRepo.sessions, sessionRepo.client.now)
    }

    constructor ()
      ensures Valid() && fresh(userRepo) && fresh(sessionRepo) && fresh(sessionRepo.client)
      ensures World() == START
    {
      userRepo := new UserTable();
      sessionRepo := new SessionValkey();
    }

    method RegisterUser(username: Option<string>, password: Option<string>, id: string, hashed: bool, query: Query)
      returns (e: Error)
      requires Valid() && IsId(id)
      modifies userRepo
      ensures Valid()
      ensures (World(), Done(e)) == Do(old(World()), Register(username, password, id, hashed, query))
    {
      var user := new User();
      e := user.SetUsername(username);
      if e != OK {
        return e;
      }
      e := user.SetPassword(password, hashed);
      if e != OK {
        return e;
      }
      var r := userRepo.AddUser(user, id, query);
      if r.Failure? {
        return r.error;
      }
      return OK;
    }

    method Login(username: Option<string>, password: Option<string>, sid: string, query: Query, reach: Reach)
      returns (r: Result<string>)
      requires Valid() && IsId(sid)
      modifies sessionRepo, sessionRepo.client
      ensures Valid()
      ensures (World(), if r.Success? then LoggedIn(r.value) else Done(r.error)) ==
                Do(old(World()), Event.Login(username, password, sid, query, reach))
    {
      hide CStr, UuidText, Refines, Verifies, IsLive;
      if username.Some? {
        EmptyCStr(username.value);
      }
      if password.Some? {
        EmptyCStr(password.value);
      }
      if username == None || username.value == "" || username.value[0] == NUL {
        return Failure(LOGIN_USERNAME_EMPTY);
      }
      if password == None || password.value == "" || password.value[0] == NUL {
        return Failure(LOGIN_PASSWORD_EMPTY);
      }
      var got := userRepo.GetUserByUsername(username.value, query);
      if got.Failure? {
        return Failure(got.error);
      }
      if !Verifies(got.value.password, password.value) {
        return Failure(LOGIN_PASSWORD_MISMATCH);
      }
      r := sessionRepo.SetSession(got.value, sid, reach);
    }

    method Logout(sid: string, reach: Reach) returns (e: Error)
      requires Valid()
      modifies sessionRepo, sessionRepo.client
      ensures Valid()
      ensures (World(), Done(e)) == Do(old(World()), Event.Logout(sid, reach))
    {
      e := sessionRepo.RemoveSession(sid, reach);
    }

    method GetUser(sid: string, reach: Reach) returns (r: Result<User>)
      requires Valid()
      ensures (World(), if r.Success? then FoundUser(Person(r.value.id, r.value.username)) else Done(r.error)) ==
                Do(World(), Event.Lookup(sid, reach))
    {
      r := sessionRepo.GetUser(sid, reach);
    }

    /** Time passes at the store. */
    method Tick(d: nat)
      requires Valid()
      modifies sessionRepo.client
      ensures Valid() && World() == Do(old(World()), Event.Tick(d)).0
    {
      sessionRepo.client.Tick(d);
    }
  }

  lemma EmptyCStr(s: string)
    ensures CStr(s) == "" <==> s == "" || s[0] == NUL
  {
  }

  // ----- whole runs

  const START := State(map[], map[], 0)

  function After(es: seq<Event>): State {
    if es == [] then START else Do(After(es[..|es| - 1]), es[|es| - 1]).0
  }

  lemma AfterOne(es: seq<Event>, e: Event)
    ensures After(es + [e]) == Do(After(es), e).0
  {
    assert (es + [e])[..|es|] == es;
  }

  lemma AfterTwo(es: seq<Event>, e: Event, e': Event)
    ensures After(es + [e, e']) == Do(Do(After(es), e).0, e').0
  {
    hide Do, After;
    AfterOne(es, e);
    AfterOne(es + [e], e');
    assert es + [e] + [e'] == es + [e, e'];
  }

  /** The generated ids are whole. */
  predicate WholeIds(e: Event) {
    (e.Register? ==> |e.id| == SIZE && NulFree(e.id)) && (e.Login? ==> |e.sid| == SIZE && NulFree(e.sid))
  }

  /** A service that has been through a run of requests is in the state after that run. */
  method Replay(es: seq<Event>) returns (auth: Auth)
    requires forall i :: 0 <= i < |es| ==> WholeIds(es[i])
    ensures fresh(auth) && auth.Valid() && auth.World() == After(es)
  {
    auth := new Auth();
    var i := 0;
    while i < |es|
      invariant i <= |es| && auth.Valid() && auth.World() == After(es[..i])
      invariant fresh(auth) && fresh(auth.userRepo) && fresh(auth.sessionRepo) && fresh(auth.sessionRepo.client)
    {
      assert es[..i + 1][..i] == es[..i];
      match es[i] {
        case Register(username, password, id, hashed, query) =>
          var e := auth.RegisterUser(username, password, id, hashed, query);
        case Login(username, password, sid, query, reach) =>
          var r := auth.Login(username, password, sid, query, reach);
        case Logout(sid, reach) =>
          var e := auth.Logout(sid, reach);
        case Lookup(sid, reach) =>
          var r := auth.GetUser(sid, reach);
        case Tick(d) =>
          auth.Tick(d);
      }
      i := i + 1;
    }
    assert es[..i] == es;
  }

  // ----- what a run says of an account

  /** The account that a run registered under a name: the first registration that went in. */
  function Registered(es: seq<Event>, name: string): Option<Account> {
    if es == [] then None
    else
      var before, e := Registered(es[..|es| - 1], name), es[|es| - 1];
      if before.Some? then before
      else if e.Register? && CheckUsername(e.username) == OK && CheckPassword(e.password) == OK
              && e.hashed && Inserts(e.query) && FitsColumn(name) && CStr(e.username.value) == name then
        Some(Account(e.id, HashOf(CStr(e.password.value))))
      else None
  }

  lemma {:induction false} UsersAreRegistered(es: seq<Event>, name: string)
    ensures name in After(es).users <==> Registered(es, name).Some?
    ensures name in After(es).users ==> Registered(es, name) == Some(After(es).users[name])
  {
    if es != [] {
      UsersAreRegistered(es[..|es| - 1], name);
    }
  }

  /** The name was registered, and with a password that verifies. */
  predicate CanLogin(es: seq<Event>, username: Option<string>, password: Option<string>) {
    && !Missing(username) && !Missing(password)
    && Registered(es, CStr(username.value)).Some?
    && Verifies(Registered(es, CStr(username.value)).value.password, password.value)
  }

  /** When a login gets as far as the session store, and when the caller is told that it
      succeeded: a write that the store refused is not noticed. */
  lemma LoginIff(es: seq<Event>, e: Event)
    requires e.Login?
    ensures LoginError(After(es), e) == OK <==> CanLogin(es, e.username, e.password) && e.query == Ran
    ensures Do(After(es), e).1 == LoggedIn(e.sid) <==>
              CanLogin(es, e.username, e.password) && e.query == Ran && (e.reach == Served || e.reach == Refused)
  {
    if e.username.Some? {
      UsersAreRegistered(es, CStr(e.username.value));
    }
  }

  /** When a registration is told it succeeded: its fields are accepted, the name is new, and
      it fits the column, which holds fewer characters than a username may have. */
  lemma RegisterIff(es: seq<Event>, e: Event)
    requires e.Register? && e.hashed && e.query == Ran
    requires CheckUsername(e.username) == OK && CheckPassword(e.password) == OK
    ensures Do(After(es), e).1 == Done(OK) <==>
              FitsColumn(CStr(e.username.value)) && Registered(es, CStr(e.username.value)) == None
  {
    UsersAreRegistered(es, CStr(e.username.value));
  }

  lemma {:induction false} PlainCharacters(s: string)
    requires forall i :: 0 <= i < |s| ==> s[i] as int < 0x80
    ensures Characters(s) == |s|
  {
    if s != "" {
      PlainCharacters(s[1..]);
    }
  }

  /** For names without bytes above 127 the column holds 50 of them; two bytes of one
      character count once. */
  lemma ColumnIff(name: string)
    requires forall i :: 0 <= i < |name| ==> name[i] as int < 0x80
    ensures FitsColumn(name) <==> |name| <= 50
    ensures Characters("\U{C3}\U{A9}") == 1
  {
    PlainCharacters(name);
    assert "\U{C3}\U{A9}"[1..] == "\U{A9}";
  }

  /** A name of 51 letters is a valid username, and no run can register it. */
  lemma WideNameRefused(es: seq<Event>, password: Option<string>, id: string, hashed: bool, query: Query)
    ensures
      var name := seq(51, _ => 'a');
      && CheckUsername(Some(name)) == OK && !FitsColumn(name)
      && Do(After(es), Register(Some(name), password, id, hashed, query)).1 != Done(OK)
      && Registered(es, name) == None
  {
    var name := seq(51, _ => 'a');
    IsText(name);
    PlainCharacters(name);
    NoWideName(es, name);
  }

  lemma {:induction false} NoWideName(es: seq<Event>, name: string)
    requires !FitsColumn(name)
    ensures Registered(es, name) == None
  {
    if es != [] {
      NoWideName(es[..|es| - 1], name);
    }
  }

  /** Whoever registered with a password of 8 to 60 characters can log in with it. */
  lemma RegisteredCanLogin(es: seq<Event>, e: Event)
    requires e.Register? && e.hashed && Inserts(e.query)
    requires CheckUsername(e.username) == OK && CheckPassword(e.password) == OK
    requires FitsColumn(CStr(e.username.value)) && Registered(es, CStr(e.username.value)) == None
    ensures CanLogin(es + [e], e.username, e.password)
  {
    hide CStr;
    assert (es + [e])[..|es|] == es;
  }

  // ----- what a run says of a session

  /** The time at the end of a run. */
  function Clock(es: seq<Event>): nat {
    if es == [] then 0
    else Clock(es[..|es| - 1]) + if es[|es| - 1].Tick? then es[|es| - 1].d else 0
  }

  datatype Held = Held(person: Person, since: nat)

  /** Does this login, after the events before it, store a session under `sid`? */
  predicate Issues(before: seq<Event>, e: Event, sid: string) {
    e.Login? && e.sid == sid && CanLogin(before, e.username, e.password) && e.query == Ran && Applied(e.reach)
  }

  /** Does this event log `sid` out, if it is logged in? */
  predicate Ends(e: Event, sid: string) {
    e.Logout? && UuidText(e.sid) == sid && Applied(e.reach)
  }

  /** Who a session id was last issued to in a run, and when, unless it was logged out since. */
  function Holder(es: seq<Event>, sid: string): Option<Held> {
    if es == [] then None
    else
      var init, e := es[..|es| - 1], es[|es| - 1];
      if Issues(init, e, sid) then
        var name := CStr(e.username.value);
        Some(Held(Person(Registered(init, name).value.id, name), Clock(init)))
      else if Ends(e, sid) then None
      else Holder(init, sid)
  }

  /** The session of a holder. */
  function SessionFor(h: Held): Session {
    Session(h.person, h.since + EXPIRY)
  }

  lemma {:induction false} ClockIsNow(es: seq<Event>)
    ensures After(es).now == Clock(es)
  {
    if es != [] {
      ClockIsNow(es[..|es| - 1]);
    }
  }

  /** The state agrees with what the run says of one id; what it has besides is over. */
  ghost predicate Agrees(s: State, sid: string, holder: Option<Held>) {
    match holder
    case Some(h) => sid in s.sessions && s.sessions[sid] == SessionFor(h)
    case None => !IsLive(s.sessions, sid, s.now)
  }

  lemma AgreesStep(es: seq<Event>, e: Event, sid: string)
    requires Agrees(After(es), sid, Holder(es, sid))
    ensures Agrees(Do(After(es), e).0, sid, Holder(es + [e], sid))
  {
    assert (es + [e])[..|es|] == es;
    if e.Login? {
      LoginIff(es, e);
      ClockIsNow(es);
      if e.username.Some? {
        UsersAreRegistered(es, CStr(e.username.value));
      }
    }
  }

  /** In every run, what the state holds for an id is what the events say. */
  lemma {:induction false} SessionsAreHeld(es: seq<Event>, sid: string)
    ensures Agrees(After(es), sid, Holder(es, sid))
  {
    if es != [] {
      SessionsAreHeld(es[..|es| - 1], sid);
      AgreesStep(es[..|es| - 1], es[|es| - 1], sid);
      assert es[..|es| - 1] + [es[|es| - 1]] == es;
    }
  }

  /** A lookup that is served finds a person just when the id was issued to that person, was
      not logged out since, and is less than an hour old. */
  lemma LookupIff(es: seq<Event>, sid: string, reach: Reach, person: Person)
    ensures Do(After(es), Lookup(sid, reach)).1 == FoundUser(person) <==>
              reach == Served &&
              exists since: nat :: Holder(es, UuidText(sid)) == Some(Held(person, since)) && Clock(es) < since + 3600
  {
    SessionsAreHeld(es, UuidText(sid));
    ClockIsNow(es);
    var holder := Holder(es, UuidText(sid));
    if Do(After(es), Lookup(sid, reach)).1 == FoundUser(person) {
      assert holder == Some(Held(person, holder.value.since));
    }
  }

  /** A login that is told it succeeded has a session exactly if the store did not refuse it. */
  lemma LoginHeldIff(es: seq<Event>, e: Event)
    requires e.Login? && |e.sid| == SIZE && NulFree(e.sid) && Do(After(es), e).1 == LoggedIn(e.sid)
    requires !IsLive(After(es).sessions, e.sid, After(es).now)
    ensures Do(After(es + [e]), Lookup(e.sid, Served)).1.FoundUser? <==> e.reach != Refused
  {
    hide CStr, Verifies, UuidText, After;
    AfterOne(es, e);
    IdText(e.sid);
  }

  // ----- what the caller of each operation is told, in terms of the run

  /** The error of a query that did not run. */
  predicate Breaks(query: Query, error: Error) {
    || (query == NotConnected && error == DB_CONNECTION)
    || (query == NotPrepared && error == DB_PREPARE)
    || (query.NotExecuted? && error == DB_EXECUTION)
  }

  /** The answer to a command that was not served. */
  predicate Fails(reach: Reach, error: Error, refused: Error) {
    || (reach == Unreached && error == VALKEY_CONNECTION)
    || (reach.NoReply? && error == VALKEY_COMMAND)
    || (reach == Refused && error == refused)
  }

  /** Registration: the first thing that is wrong with the fields, then the hash, then the
      query; it succeeds if the name is new and fits the column. */
  lemma RegisterTold(es: seq<Event>, e: Event)
    requires e.Register?
    ensures
      var answer := Do(After(es), e).1;
      && answer.Done?
      && (e.username == None || CStr(e.username.value) == "" ==> answer.error == USERNAME_REQUIRED)
      && (e.username.Some? && |CStr(e.username.value)| > 60 ==> answer.error == USERNAME_MAX_LENGTH)
      && (e.username.Some? && 1 <= |CStr(e.username.value)| <= 60 ==>
            && (e.password == None || CStr(e.password.value) == "" ==> answer.error == PASSWORD_REQUIRED)
            && (e.password.Some? && 1 <= |CStr(e.password.value)| < 8 ==> answer.error == PASSWORD_MIN_LENGTH)
            && (e.password.Some? && |CStr(e.password.value)| > 60 ==> answer.error == PASSWORD_MAX_LENGTH)
            && (e.password.Some? && 8 <= |CStr(e.password.value)| <= 60 ==>
                  && (!e.hashed ==> answer.error == CRYPTO_HASH)
                  && (e.hashed && e.query != Ran ==> Breaks(e.query, answer.error))
                  && (e.hashed && e.query == Ran ==>
                        answer.error ==
                          if FitsColumn(CStr(e.username.value)) && Registered(es, CStr(e.username.value)) == None
                          then OK else DB_EXECUTION)))
  {
    hide CStr, FitsColumn, After;
    UsernameIff(e.username);
    PasswordIff(e.password);
    if e.username.Some? {
      UsersAreRegistered(es, CStr(e.username.value));
    }
  }

  /** Whatever the caller is told, an acceptable registration is in exactly when its row was
      inserted, and then under its own name with its own password. */
  lemma RegisterEnters(es: seq<Event>, e: Event)
    requires e.Register? && e.username.Some? && 1 <= |CStr(e.username.value)| <= 60
    requires e.password.Some? && 8 <= |CStr(e.password.value)| <= 60
    requires FitsColumn(CStr(e.username.value)) && Registered(es, CStr(e.username.value)) == None
    ensures
      var name, users := CStr(e.username.value), After(es + [e]).users;
      && (name in users <==> e.hashed && (e.query == Ran || e.query == NotExecuted(true)))
      && (name in users ==> users[name] == Account(e.id, HashOf(CStr(e.password.value))))
      && (forall other :: other != name ==> (other in users <==> other in After(es).users))
      && (forall other :: other != name && other in users ==> users[other] == After(es).users[other])
  {
    hide CStr, FitsColumn, After;
    UsernameIff(e.username);
    PasswordIff(e.password);
    UsersAreRegistered(es, CStr(e.username.value));
    AfterOne(es, e);
  }

  /** Login: the first empty field, then the query, then an unknown name, then a password that
      is not the registered one in its first 60 bytes; then the answer of the store. */
  lemma LoginTold(es: seq<Event>, e: Event)
    requires e.Login?
    ensures
      var answer := Do(After(es), e).1;
      && (e.username == None || CStr(e.username.value) == "" ==> answer == Done(LOGIN_USERNAME_EMPTY))
      && (e.username.Some? && CStr(e.username.value) != "" ==>
            && (e.password == None || CStr(e.password.value) == "" ==> answer == Done(LOGIN_PASSWORD_EMPTY))
            && (e.password.Some? && CStr(e.password.value) != "" ==>
                  var account := Registered(es, CStr(e.username.value));
                  && (e.query != Ran ==> answer.Done? && Breaks(e.query, answer.error))
                  && (e.query == Ran && account == None ==> answer == Done(USER_NOT_FOUND))
                  && (e.query == Ran && account.Some? ==>
                        if account.value.password != HashOf(Take(CStr(e.password.value), 60))
                        then answer == Done(LOGIN_PASSWORD_MISMATCH)
                        else if e.reach == Served || e.reach == Refused then answer == LoggedIn(e.sid)
                        else answer.Done? && Fails(e.reach, answer.error, OK))))
  {
    hide CStr, After, Take;
    if e.username.Some? {
      UsersAreRegistered(es, CStr(e.username.value));
    }
  }

  /** A wrong password is refused: of what is given, the first 60 bytes must be the password
      that was registered. */
  lemma MismatchIff(es: seq<Event>, e: Event, id: string, password: string)
    requires e.Login? && e.query == Ran && e.username.Some? && CStr(e.username.value) != ""
    requires e.password.Some? && CStr(e.password.value) != ""
    requires Registered(es, CStr(e.username.value)) == Some(Account(id, HashOf(password)))
    ensures Do(After(es), e).1 == Done(LOGIN_PASSWORD_MISMATCH) <==> Take(CStr(e.password.value), 60) != password
  {
    hide CStr, After, Take;
    LoginTold(es, e);
  }

  /** A login that is accepted stores a session exactly when its write was applied, whatever
      the caller is told. */
  lemma LoginStores(es: seq<Event>, e: Event)
    requires e.Login? && |e.sid| == SIZE && NulFree(e.sid)
    requires CanLogin(es, e.username, e.password) && e.query == Ran
    requires !IsLive(After(es).sessions, e.sid, After(es).now)
    ensures Do(After(es + [e]), Lookup(e.sid, Served)).1.FoundUser? <==> e.reach == Served || e.reach == NoReply(true)
  {
    hide CStr, Verifies, UuidText, After;
    AfterOne(es, e);
    LoginIff(es, e);
    IdText(e.sid);
  }

  /** The id was issued in the run, was not logged out since, and is less than an hour old. */
  predicate Current(es: seq<Event>, sid: string) {
    Holder(es, sid).Some? && Clock(es) < Holder(es, sid).value.since + 3600
  }

  /** Logout: only an id that is current is logged out; any other has nothing to delete. */
  lemma LogoutTold(es: seq<Event>, sid: string, reach: Reach)
    ensures
      var answer := Do(After(es), Logout(sid, reach)).1;
      && answer.Done?
      && (reach == Served ==> answer.error == if Current(es, UuidText(sid)) then OK else VALKEY_NONE_DELETED)
      && (reach != Served ==> Fails(reach, answer.error, VALKEY_NONE_DELETED))
  {
    hide After, UuidText;
    SessionsAreHeld(es, UuidText(sid));
    ClockIsNow(es);
  }

  /** So a second logout of the same id is told that there is nothing to delete. */
  lemma SecondLogoutTold(es: seq<Event>, sid: string)
    ensures Do(After(es + [Logout(sid, Served)]), Logout(sid, Served)).1 == Done(VALKEY_NONE_DELETED)
  {
    hide After, UuidText;
    AfterOne(es, Logout(sid, Served));
  }

  /** Lookup: who holds the id that is current, and otherwise an error. */
  lemma LookupTold(es: seq<Event>, sid: string, reach: Reach)
    ensures
      var answer := Do(After(es), Lookup(sid, reach)).1;
      && (reach == Served && Current(es, UuidText(sid)) ==>
            answer == FoundUser(Holder(es, UuidText(sid)).value.person))
      && (reach == Served && !Current(es, UuidText(sid)) ==> answer == Done(VALKEY_TYPE))
      && (reach != Served ==> answer.Done? && Fails(reach, answer.error, VALKEY_TYPE))
  {
    hide After, UuidText;
    SessionsAreHeld(es, UuidText(sid));
    ClockIsNow(es);
  }

  // ----- a session that was never stored

  const SOME_ID := "0b51ecd5-3f64-4c39-9d0f-6a1f0f0c6f11"
  const JOINS := Register(Some("ann"), Some("password"), SOME_ID, true, Ran)
  const REFUSED_LOGIN := Login(Some("ann"), Some("password"), SOME_ID, Ran, Refused)

  lemma JoinsAccepted()
    ensures FitsColumn(CStr(JOINS.username.value))
    ensures CheckUsername(JOINS.username) == OK && CheckPassword(JOINS.password) == OK
    ensures |SOME_ID| == SIZE && NulFree(SOME_ID)
  {
    hide CStr;
    IsText("ann");
    IsText("password");
    PlainCharacters("ann");
  }

  lemma JoinsCanLogin()
    ensures CanLogin([JOINS], REFUSED_LOGIN.username, REFUSED_LOGIN.password)
  {
    hide CanLogin, CheckUsername, CheckPassword;
    JoinsAccepted();
    RegisteredCanLogin([], JOINS);
    assert [] + [JOINS] == [JOINS];
  }

  lemma NothingHeld(sid: string)
    ensures !IsLive(After([JOINS]).sessions, sid, After([JOINS]).now)
  {
    SessionsAreHeld([JOINS], sid);
    assert [JOINS][..0] == [];
  }

  /** A user registers and logs in while the store refuses writes: the login is told that it
      succeeded, and the session is not there. */
  lemma RefusedLoginLost()
    ensures Do(After([JOINS]), REFUSED_LOGIN).1 == LoggedIn(SOME_ID)
    ensures !Do(After([JOINS, REFUSED_LOGIN]), Lookup(SOME_ID, Served)).1.FoundUser?
  {
    hide Do, After, CanLogin, IsLive, LoginError;
    JoinsAccepted();
    JoinsCanLogin();
    NothingHeld(SOME_ID);
    LoginIff([JOINS], REFUSED_LOGIN);
    assert [JOINS] + [REFUSED_LOGIN] == [JOINS, REFUSED_LOGIN];
    LoginHeldIff([JOINS], REFUSED_LOGIN);
  }

  lemma OverStep(s: State, e: Event, sid: string)
    requires !IsLive(s.sessions, sid, s.now) && !(e.Login? && e.sid == sid)
    ensures !IsLive(Do(s, e).0.sessions, sid, Do(s, e).0.now)
  {
  }

  /** A session that is over stays over, until some login issues the same id again. */
  lemma {:induction false} NoRevival(es: seq<Event>, rest: seq<Event>, sid: string)
    requires !IsLive(After(es).sessions, sid, After(es).now)
    requires forall i :: 0 <= i < |rest| ==> !(rest[i].Login? && rest[i].sid == sid)
    ensures !IsLive(After(es + rest).sessions, sid, After(es + rest).now)
    decreases |rest|
  {
    hide Do, IsLive;
    if rest == [] {
      assert es + rest == es;
    } else {
      var init := rest[..|rest| - 1];
      NoRevival(es, init, sid);
      assert (es + rest)[..|es + rest| - 1] == es + init;
      OverStep(After(es + init), rest[|rest| - 1], sid);
    }
  }
}
