/** The routes that the server ships with, from their registration to the answers they give. */
module ShippedRoutes {
  import opened Text
  import opened RouteTable
  import opened Compiler
  import opened Dispatch
  import opened RouterTheorems
  import opened RouterDepartures

  const LOGIN := Route(Key("/api/auth/login", POST), Callback(0, 1))
  const REGISTER := Route(Key("/api/auth/register", POST), Callback(0, 2))
  const LOGOUT := Route(Key("/api/auth/logout", POST), Callback(0, 3))
  const USER := Route(Key("/api/user", GET), Callback(0, 4))

  /** In the order of `setup`. */
  const SETUP := [LOGIN, REGISTER, LOGOUT, USER]

  /** In the order of the route map. */
  const ORDERED := [LOGIN, LOGOUT, REGISTER, USER]

  lemma ThreeSegs(a: string, b: string, c: string)
    requires SlashFree(a) && SlashFree(b) && SlashFree(c) && !IsParam(a) && c != ""
    ensures GoodPath("/" + (a + "/" + (b + "/" + c)))
    ensures PathSegs("/" + (a + "/" + (b + "/" + c))) == [a, b, c]
  {
    JoinStep(b, [c]);
    JoinStep(a, [b, c]);
    assert [b] + [c] == [b, c] && [a] + [b, c] == [a, b, c];
    PathOfSegs([a, b, c]);
  }

  lemma TwoSegs(a: string, b: string)
    requires SlashFree(a) && SlashFree(b) && !IsParam(a) && b != ""
    ensures GoodPath("/" + (a + "/" + b)) && PathSegs("/" + (a + "/" + b)) == [a, b]
  {
    JoinStep(a, [b]);
    assert [a] + [b] == [a, b];
    PathOfSegs([a, b]);
  }

  lemma AuthSegs(name: string)
    requires SlashFree(name) && name != ""
    ensures GoodPath("/api/auth/" + name) && PathSegs("/api/auth/" + name) == ["api", "auth", name]
  {
    hide GoodPath, PathSegs;
    ThreeSegs("api", "auth", name);
    assert "/" + ("api" + "/" + ("auth" + "/" + name)) == "/api/auth/" + name;
  }

  lemma LoginSegs()
    ensures GoodPath(LOGIN.key.path) && PathSegs(LOGIN.key.path) == ["api", "auth", "login"]
  {
    hide GoodPath, PathSegs;
    AuthSegs("login");
    assert "/api/auth/" + "login" == "/api/auth/login";
  }

  lemma LogoutSegs()
    ensures GoodPath(LOGOUT.key.path) && PathSegs(LOGOUT.key.path) == ["api", "auth", "logout"]
  {
    hide GoodPath, PathSegs;
    AuthSegs("logout");
    assert "/api/auth/" + "logout" == "/api/auth/logout";
  }

  lemma RegisterSegs()
    ensures GoodPath(REGISTER.key.path) && PathSegs(REGISTER.key.path) == ["api", "auth", "register"]
  {
    hide GoodPath, PathSegs;
    AuthSegs("register");
    assert "/api/auth/" + "register" == "/api/auth/register";
  }

  lemma UserSegs()
    ensures GoodPath(USER.key.path) && PathSegs(USER.key.path) == ["api", "user"]
  {
    hide GoodPath, PathSegs;
    TwoSegs("api", "user");
    assert "/" + ("api" + "/" + "user") == "/api/user";
  }

  lemma SegsOfAll()
    ensures forall i :: 0 <= i < 4 ==> GoodPath(ORDERED[i].key.path)
    ensures PathSegs(LOGIN.key.path) == ["api", "auth", "login"]
    ensures PathSegs(LOGOUT.key.path) == ["api", "auth", "logout"]
    ensures PathSegs(REGISTER.key.path) == ["api", "auth", "register"]
    ensures PathSegs(USER.key.path) == ["api", "user"]
  {
    hide GoodPath, PathSegs;
    LoginSegs();
    LogoutSegs();
    RegisterSegs();
    UserSegs();
  }

  /** What follows the part that two paths share decides their order. */
  lemma PathsDiffer(shared: string, a: string, b: string)
    requires a != "" && b != "" && a[0] < b[0]
    ensures StrCmp(shared + a, shared + b) < 0
  {
    StrCmpPrefix(shared, a, b);
  }

  lemma OrderedSorted()
    ensures Sorted(ORDERED)
  {
    hide StrCmp;
    PathsDiffer("/api/auth/log", "in", "out");
    PathsDiffer("/api/auth/", "logout", "register");
    PathsDiffer("/api/", "auth/register", "user");
    assert "/api/auth/log" + "in" == LOGIN.key.path && "/api/auth/log" + "out" == LOGOUT.key.path;
    assert "/api/auth/" + "logout" == LOGOUT.key.path && "/api/auth/" + "register" == REGISTER.key.path;
    assert "/api/" + "auth/register" == REGISTER.key.path && "/api/" + "user" == USER.key.path;
    KeyOrder(LOGIN.key, LOGOUT.key, REGISTER.key);
    KeyOrder(LOGIN.key, REGISTER.key, USER.key);
    KeyOrder(LOGOUT.key, REGISTER.key, USER.key);
  }

  lemma SetupOrdered()
    ensures DistinctKeys(SETUP) && Register(SETUP) == ORDERED
  {
    hide Register, Sorted;
    OrderedSorted();
    RegisterSorted(SETUP);
    SortedUnique(Register(SETUP), ORDERED);
  }

  /** Paths without parameters are always compatible. */
  lemma StaticCompatible(a: seq<string>, b: seq<string>)
    requires forall j :: 0 <= j < |a| ==> !IsParam(a[j])
    requires forall j :: 0 <= j < |b| ==> !IsParam(b[j])
    ensures Compatible(a, b)
  {
  }

  lemma OrderedCount()
    ensures SegCount(ORDERED) == 11
  {
    hide PathSegs, GoodPath, SegCount;
    SegsOfAll();
    NoSegs();
    SegCountOne([], LOGIN);
    SegCountOne([LOGIN], LOGOUT);
    SegCountOne([LOGIN, LOGOUT], REGISTER);
    SegCountOne([LOGIN, LOGOUT, REGISTER], USER);
    assert [] + [LOGIN] == [LOGIN] && [LOGIN] + [LOGOUT] == [LOGIN, LOGOUT];
    assert [LOGIN, LOGOUT] + [REGISTER] == [LOGIN, LOGOUT, REGISTER];
    assert [LOGIN, LOGOUT, REGISTER] + [USER] == ORDERED;
  }

  lemma OrderedStatic(i: nat)
    requires i < 4
    ensures forall j :: 0 <= j < |SegsOf(ORDERED, i)| ==> !IsParam(SegsOf(ORDERED, i)[j])
  {
    hide PathSegs, GoodPath;
    SegsOfAll();
  }

  lemma ShippedWellFormed()
    ensures WellFormed(ORDERED)
  {
    hide PathSegs, GoodPath, SegCount, Sorted, Compatible;
    OrderedSorted();
    OrderedCount();
    SegsOfAll();
    forall i, j | 0 <= i < 4 && 0 <= j < 4 ensures Compatible(SegsOf(ORDERED, i), SegsOf(ORDERED, j)) {
      OrderedStatic(i);
      OrderedStatic(j);
      StaticCompatible(SegsOf(ORDERED, i), SegsOf(ORDERED, j));
    }
  }

  /** A path without parameters covers just the URI that spells it. */
  lemma StaticCovers(path: string, uri: string)
    requires GoodPath(path) && uri != ""
    requires forall j :: 0 <= j < |PathSegs(path)| ==> !IsParam(PathSegs(path)[j])
    ensures Covers(PathSegs(path), UriSegs(uri)) <==> path == "/" + UriBody(uri)
  {
    JoinSplit(path[1..]);
    JoinSplit(UriBody(uri));
    if Covers(PathSegs(path), UriSegs(uri)) {
      assert PathSegs(path) == UriSegs(uri);
    }
    assert path == "/" + path[1..];
  }

  lemma {:induction false} StaticBindings(segs: seq<string>, us: seq<string>, j: nat)
    requires j <= |segs| && j <= |us|
    requires forall k :: 0 <= k < |segs| ==> !IsParam(segs[k])
    ensures Bindings(segs, us, j) == []
  {
    if j > 0 {
      StaticBindings(segs, us, j - 1);
    }
  }

  lemma NothingBound(us: seq<string>, verb: nat, i: nat)
    requires i < 4 && Answers(ORDERED, us, verb, i)
    ensures |us| == |SegsOf(ORDERED, i)| && Bindings(SegsOf(ORDERED, i), us, |us|) == []
  {
    hide PathSegs;
    OrderedStatic(i);
    StaticBindings(SegsOf(ORDERED, i), us, |us|);
  }

  /** The URI spells the path of the route, up to a trailing slash and the first character,
      which is never looked at, and the method is its own. */
  predicate Spells(uri: string, verb: nat, r: Route)
    requires uri != ""
  {
    r.key.path == "/" + UriBody(uri) && verb == r.key.verb
  }

  lemma ShippedAnswers(uri: string, verb: nat, i: nat)
    requires uri != "" && i < 4
    ensures Answers(ORDERED, UriSegs(uri), verb, i) <==> Spells(uri, verb, ORDERED[i])
  {
    hide PathSegs, GoodPath, Covers, UriBody;
    SegsOfAll();
    OrderedStatic(i);
    StaticCovers(ORDERED[i].key.path, uri);
  }

  /** The shipped server, as written, is exact: a request runs the callback of a shipped route
      just when it spells that route, and every other request is not found. */
  lemma ShippedRouter(uri: string, verb: nat)
    requires uri != "" && verb < 256
    ensures Room(EMPTY_GRAPH, Register(SETUP)) && Ready(Compile(EMPTY_GRAPH, Register(SETUP)))
    ensures
      var answer := HandleWritten(Compile(EMPTY_GRAPH, Register(SETUP)), uri, verb);
      && (forall r :: r in SETUP ==> (answer == Run(r.callback, []) <==> Spells(uri, verb, r)))
      && (answer == NotFound || exists r :: r in SETUP && answer == Run(r.callback, []))
  {
    hide PathSegs, UriBody, Answers, Spells, WellFormed, Register, HandleWritten, HandleIntended, Compile;
    SetupOrdered();
    ShippedWellFormed();
    IntendedExact(ORDERED, uri, verb);
    OrderedAgrees(uri, verb);
    var answer := HandleWritten(Compile(EMPTY_GRAPH, ORDERED), uri, verb);
    forall i: nat | i < 4
      ensures Spells(uri, verb, ORDERED[i]) <==> Answers(ORDERED, UriSegs(uri), verb, i)
      ensures Spells(uri, verb, ORDERED[i]) ==> answer == Run(ORDERED[i].callback, [])
    {
      ShippedAnswers(uri, verb, i);
      if Answers(ORDERED, UriSegs(uri), verb, i) {
        NothingBound(UriSegs(uri), verb, i);
      }
    }
    FourRoutes(answer, uri, verb);
  }

  lemma OrderedAgrees(uri: string, verb: nat)
    requires uri != "" && verb < 256
    ensures WellFormed(ORDERED) && Room(EMPTY_GRAPH, ORDERED) && Ready(Compile(EMPTY_GRAPH, ORDERED))
    ensures HandleWritten(Compile(EMPTY_GRAPH, ORDERED), uri, verb) ==
              HandleIntended(Compile(EMPTY_GRAPH, ORDERED), uri, verb)
  {
    hide PathSegs, UriBody, Answers, WellFormed, HandleWritten, HandleIntended, Compile;
    ShippedWellFormed();
    forall i: nat | i < 4
      ensures Head(ORDERED, i) && forall j :: 0 <= j < |SegsOf(ORDERED, i)| ==> !IsParam(SegsOf(ORDERED, i)[j])
    {
      OrderedStatic(i);
      assert LOGIN.key.path != LOGOUT.key.path && LOGOUT.key.path != REGISTER.key.path
          && REGISTER.key.path != USER.key.path;
    }
    OneMethodNoParamsAgrees(ORDERED, uri, verb);
  }

  lemma SameCallback(i: nat, r: Route)
    requires i < 4 && r in SETUP && ORDERED[i].callback == r.callback
    ensures ORDERED[i] == r
  {
  }

  lemma Placed(r: Route) returns (i: nat)
    requires r in SETUP
    ensures i < 4 && ORDERED[i] == r
  {
    i := if r == LOGIN then 0 else if r == LOGOUT then 1 else if r == REGISTER then 2 else 3;
  }

  /** The four callbacks are distinct, so the one that runs tells the route that answers. */
  lemma FourRoutes(answer: Answer, uri: string, verb: nat)
    requires uri != ""
    requires answer != NotFound ==> exists i :: 0 <= i < 4 && Spells(uri, verb, ORDERED[i])
    requires forall i: nat :: i < 4 && Spells(uri, verb, ORDERED[i]) ==> answer == Run(ORDERED[i].callback, [])
    ensures forall r :: r in SETUP ==> (answer == Run(r.callback, []) <==> Spells(uri, verb, r))
    ensures answer == NotFound || exists r :: r in SETUP && answer == Run(r.callback, [])
  {
    hide Spells;
    if answer != NotFound {
      var i :| 0 <= i < 4 && Spells(uri, verb, ORDERED[i]);
      assert ORDERED[i] in SETUP;
      forall r | r in SETUP && answer == Run(r.callback, []) ensures Spells(uri, verb, r) {
        SameCallback(i, r);
      }
    }
    forall r | r in SETUP && Spells(uri, verb, r) ensures answer == Run(r.callback, []) {
      var n := Placed(r);
    }
  }
}
