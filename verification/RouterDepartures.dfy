/** Consequences of the router theorems: what does not matter to routing, the tables on which
    the written router never departs from the intended one, and small tables on which it does. */
module RouterDepartures {
  import opened Text
  import opened RouteTable
  import opened Compiler
  import opened Dispatch
  import opened RouterTheorems
  import opened RequestHandler

  /** Adding a trailing slash to a URI changes no answer of any graph. */
  lemma TrailingSlashIgnored(g: Graph, uri: string, verb: nat)
    requires Ready(g) && uri != "" && uri[|uri| - 1] != '/'
    ensures HandleWritten(g, uri + "/", verb) == HandleWritten(g, uri, verb)
    ensures HandleIntended(g, uri + "/", verb) == HandleIntended(g, uri, verb)
  {
    var v := uri + "/";
    assert v[0] == uri[0] && v[|v| - 1] == '/';
    assert v[1..|v| - 1] == uri[1..|uri|];
  }

  /** Routers built from the same routes in any two orders answer every request alike. */
  lemma RegistrationOrderUnobservable(rs: seq<Route>, qs: seq<Route>, uri: string, verb: nat)
    requires DistinctKeys(rs) && DistinctKeys(qs) && multiset(rs) == multiset(qs)
    requires Room(EMPTY_GRAPH, Register(rs)) && uri != ""
    ensures Room(EMPTY_GRAPH, Register(qs))
    ensures Ready(Compile(EMPTY_GRAPH, Register(rs))) && Ready(Compile(EMPTY_GRAPH, Register(qs)))
    ensures HandleWritten(Compile(EMPTY_GRAPH, Register(rs)), uri, verb) ==
              HandleWritten(Compile(EMPTY_GRAPH, Register(qs)), uri, verb)
  {
    RegistrationOrderIrrelevant(rs, qs);
  }

  lemma RegisteredPaths(rs: seq<Route>, r: Route)
    requires DistinctKeys(rs) && WellFormed(Register(rs)) && r in rs
    ensures r.key.path != ""
  {
    RegisterSorted(rs);
    assert r in multiset(Register(rs));
    var i :| 0 <= i < |Register(rs)| && Register(rs)[i] == r;
    assert GoodPath(Register(rs)[i].key.path);
  }

  /** The whole router at work: routes registered in any order, compiled, and asked once. */
  method Serve(rs: seq<Route>, uri: string, verb: nat) returns (answer: Answer)
    requires DistinctKeys(rs) && WellFormed(Register(rs)) && uri != "" && verb < 256
    ensures
      var t, us := Register(rs), UriSegs(uri);
      forall i :: 0 <= i < |t| && Answers(t, us, verb, i) ==>
        answer == Run(t[i].callback, Bindings(SegsOf(t, i), us, |us|))
    ensures
      var t, us := Register(rs), UriSegs(uri);
      answer != NotFound && !Overruns(t, us, verb) ==> exists i :: 0 <= i < |t| && Answers(t, us, verb, i)
  {
    var t := Register(rs);
    forall r | r in rs ensures r.key.path != "" {
      RegisteredPaths(rs, r);
    }
    IntendedExact(t, uri, verb);
    AgreeUnlessOverrun(t, uri, verb);
    forall i | 0 <= i < |t| && Answers(t, UriSegs(uri), verb, i)
      ensures HandleWritten(Compile(EMPTY_GRAPH, t), uri, verb) ==
                Run(t[i].callback, Bindings(SegsOf(t, i), UriSegs(uri), |UriSegs(uri)|))
    {
      WrittenCompleteness(t, uri, i);
    }
    var h := Boot(rs);
    answer := h.HandleRequest(uri, verb);
  }

  /** A table in which every path has one method and no path has a parameter, as the
      shipped one: the written router is the intended one on every request. */
  lemma OneMethodNoParamsAgrees(t: Table, uri: string, verb: nat)
    requires WellFormed(t) && uri != "" && verb < 256
    requires forall i :: 0 <= i < |t| ==> Head(t, i)
    requires forall i, j :: 0 <= i < |t| && 0 <= j < |SegsOf(t, i)| ==> !IsParam(SegsOf(t, i)[j])
    ensures Room(EMPTY_GRAPH, t) && Ready(Compile(EMPTY_GRAPH, t))
    ensures HandleWritten(Compile(EMPTY_GRAPH, t), uri, verb) == HandleIntended(Compile(EMPTY_GRAPH, t), uri, verb)
  {
    AgreeUnlessOverrun(t, uri, verb);
  }

  /** The paths of a table from their segments: the other way round of splitting. */
  lemma PathOfSegs(segs: seq<string>)
    requires segs != [] && !IsParam(segs[0]) && segs[|segs| - 1] != ""
    requires forall j :: 0 <= j < |segs| ==> SlashFree(segs[j])
    ensures GoodPath("/" + Join(segs)) && PathSegs("/" + Join(segs)) == segs
  {
    var p := "/" + Join(segs);
    JoinEnds(segs);
    SplitJoin(segs);
    assert p[1..] == Join(segs);
  }

  lemma {:induction false} JoinEnds(segs: seq<string>)
    requires segs != [] && segs[|segs| - 1] != ""
    ensures Join(segs) != ""
    ensures Join(segs)[|Join(segs)| - 1] == segs[|segs| - 1][|segs[|segs| - 1]| - 1]
  {
    if |segs| > 1 {
      JoinEnds(segs[1..]);
    }
  }

  lemma NoSegs()
    ensures SegCount([]) == 0
  {
  }

  lemma SegCountOne(t: Table, r: Route)
    ensures SegCount(t + [r]) == SegCount(t) + |PathSegs(r.key.path)|
  {
    assert (t + [r])[..|t|] == t;
  }

  lemma {:induction false} StrCmpPrefix(p: string, a: string, b: string)
    ensures StrCmp(p + a, p + b) == StrCmp(a, b)
  {
    if p == "" {
      assert p + a == a && p + b == b;
    } else {
      StrCmpPrefix(p[1..], a, b);
      assert (p + a)[1..] == p[1..] + a && (p + b)[1..] == p[1..] + b;
    }
  }

  // ----- two departures

  const GET := 1
  const POST := 3

  const A := Route(Key("/a", GET), Callback(0, 1))
  const B := Route(Key("/b", GET), Callback(0, 2))
  const B_POST := Route(Key("/b", POST), Callback(0, 3))
  const TWO_PATHS := [A, B, B_POST]

  lemma TwoPathsSegs()
    ensures GoodPath("/a") && PathSegs("/a") == ["a"]
    ensures GoodPath("/b") && PathSegs("/b") == ["b"]
  {
    PathOfSegs(["a"]);
    PathOfSegs(["b"]);
    assert "/" + Join(["a"]) == "/a" && "/" + Join(["b"]) == "/b";
  }

  lemma TwoPathsSorted()
    ensures Sorted(TWO_PATHS)
  {
    StrCmpPrefix("/", "a", "b");
    assert "/" + "a" == "/a" && "/" + "b" == "/b";
    assert StrCmp("/a", "/b") < 0;
    StrCmpEqual("/b", "/b");
    assert KeyLess(A.key, B.key) && KeyLess(A.key, B_POST.key) && KeyLess(B.key, B_POST.key);
  }

  lemma TwoPathsWellFormed()
    ensures WellFormed(TWO_PATHS)
  {
    hide PathSegs, GoodPath, SegCount, Sorted;
    TwoPathsSegs();
    TwoPathsSorted();
    NoSegs();
    SegCountOne([], A);
    SegCountOne([A], B);
    SegCountOne([A, B], B_POST);
    assert [] + [A] == [A] && [A] + [B] == [A, B] && [A, B] + [B_POST] == TWO_PATHS;
    forall i, j | 0 <= i < 3 && 0 <= j < 3 ensures Compatible(SegsOf(TWO_PATHS, i), SegsOf(TWO_PATHS, j)) {
    }
  }

  lemma TwoPathsUri()
    ensures UriSegs("/a") == ["a"]
  {
    SplitJoin(["a"]);
    assert "/a"[1..2] == "a";
    assert UriBody("/a") == "a" == Join(["a"]);
  }

  lemma TwoPathsAnchors()
    ensures Anchored(TWO_PATHS, ["a"], 0, 0) && Picks(TWO_PATHS, 0, POST, 2)
    ensures Bindings(["a"], ["a"], 1) == []
    ensures forall i: nat :: !Answers(TWO_PATHS, ["a"], POST, i)
  {
    TwoPathsSegs();
    forall i: nat ensures !Answers(TWO_PATHS, ["a"], POST, i) {
      if i < 3 && SegsOf(TWO_PATHS, i) == ["b"] {
        assert !SegMatches(["b"][0], ["a"][0]);
      }
    }
    assert ["a"][..1] == ["a"];
  }

  /** A method that only another path has is answered by that other path. */
  lemma ScanRunsIntoNextGroup()
    ensures WellFormed(TWO_PATHS) && Room(EMPTY_GRAPH, TWO_PATHS)
    ensures Ready(Compile(EMPTY_GRAPH, TWO_PATHS))
    ensures HandleIntended(Compile(EMPTY_GRAPH, TWO_PATHS), "/a", POST) == NotFound
    ensures HandleWritten(Compile(EMPTY_GRAPH, TWO_PATHS), "/a", POST) == Run(B_POST.callback, [])
  {
    TwoPathsWellFormed();
    TwoPathsSegs();
    TwoPathsUri();
    TwoPathsAnchors();
    IntendedExact(TWO_PATHS, "/a", POST);
    WrittenAnswer(TWO_PATHS, "/a", POST, 0, 0, 2);
  }

  const PARENT := Route(Key("/p", GET), Callback(0, 1))
  const CHILD := Route(Key("/p/a/:x", GET), Callback(0, 2))
  const PARENT_AND_CHILD := [PARENT, CHILD]

  lemma JoinStep(head: string, tail: seq<string>)
    requires tail != []
    ensures Join([head] + tail) == head + "/" + Join(tail)
  {
    assert ([head] + tail)[1..] == tail;
  }

  lemma ChildJoin()
    ensures Join(["p", "a", ":x"]) == "p/a/:x"
  {
    JoinStep("a", [":x"]);
    JoinStep("p", ["a", ":x"]);
    assert ["a"] + [":x"] == ["a", ":x"] && ["p"] + ["a", ":x"] == ["p", "a", ":x"];
  }

  lemma ParentAndChildSegs()
    ensures GoodPath("/p") && PathSegs("/p") == ["p"]
    ensures GoodPath("/p/a/:x") && PathSegs("/p/a/:x") == ["p", "a", ":x"]
  {
    ChildJoin();
    assert "/" + Join(["p"]) == "/p" && "/" + Join(["p", "a", ":x"]) == "/p/a/:x";
    PathOfSegs(["p"]);
    PathOfSegs(["p", "a", ":x"]);
  }

  lemma ParentAndChildSorted()
    ensures Sorted(PARENT_AND_CHILD)
  {
    StrCmpPrefix("/p", "", "/a/:x");
    assert "/p" + "" == "/p" && "/p" + "/a/:x" == "/p/a/:x";
    assert KeyLess(PARENT.key, CHILD.key);
  }

  lemma ParentAndChildWellFormed()
    ensures WellFormed(PARENT_AND_CHILD)
  {
    hide PathSegs, GoodPath, SegCount, Sorted;
    ParentAndChildSegs();
    ParentAndChildSorted();
    NoSegs();
    SegCountOne([], PARENT);
    SegCountOne([PARENT], CHILD);
    assert [] + [PARENT] == [PARENT] && [PARENT] + [CHILD] == PARENT_AND_CHILD;
    forall i, j | 0 <= i < 2 && 0 <= j < 2
      ensures Compatible(SegsOf(PARENT_AND_CHILD, i), SegsOf(PARENT_AND_CHILD, j))
    {
    }
  }

  lemma ParentUri()
    ensures UriSegs("/p/a") == ["p", "a"]
  {
    JoinStep("p", ["a"]);
    assert ["p"] + ["a"] == ["p", "a"];
    SplitJoin(["p", "a"]);
    assert "/p/a"[1..4] == "p/a";
    assert UriBody("/p/a") == "p/a" == Join(["p", "a"]);
  }

  lemma ParentAnchors()
    ensures Anchored(PARENT_AND_CHILD, ["p", "a"], 1, 0)
    ensures Bindings(["p", "a", ":x"], ["p", "a"], 2) == []
    ensures forall i: nat :: !Answers(PARENT_AND_CHILD, ["p", "a"], GET, i)
  {
    ParentAndChildSegs();
    var segs := ["p", "a", ":x"];
    assert ParamAfter(segs, 2) && !ParamAfter(segs, 1);
    assert AnchorLen(segs, 2) == 1 && segs[..1] == ["p"];
    assert Bindings(segs, ["p", "a"], 1) == [];
  }

  /** A URI that stops just before a parameter is answered by the node further up. */
  lemma ParentAnswersForChild()
    ensures WellFormed(PARENT_AND_CHILD) && Room(EMPTY_GRAPH, PARENT_AND_CHILD)
    ensures Ready(Compile(EMPTY_GRAPH, PARENT_AND_CHILD))
    ensures HandleIntended(Compile(EMPTY_GRAPH, PARENT_AND_CHILD), "/p/a", GET) == NotFound
    ensures HandleWritten(Compile(EMPTY_GRAPH, PARENT_AND_CHILD), "/p/a", GET) == Run(PARENT.callback, [])
  {
    ParentAndChildWellFormed();
    ParentAndChildSegs();
    ParentUri();
    ParentAnchors();
    IntendedExact(PARENT_AND_CHILD, "/p/a", GET);
    WrittenAnswer(PARENT_AND_CHILD, "/p/a", GET, 1, 0, 0);
  }
}
