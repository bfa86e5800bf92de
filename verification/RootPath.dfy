/** The path "/": it is compiled under the empty segment of the root, and sought at the root
    itself, where no route ever ends. */
module RootPath {
  import opened Text
  import opened RouteTable
  import opened Compiler
  import opened Dispatch

  /** No link leads to the root, and the root is no endpoint. */
  ghost predicate Rootless(g: Graph) {
    && (forall s, k :: 0 <= s < |g.statics| && k in g.statics[s].links ==> g.statics[s].links[k] != 0)
    && (forall d :: 0 <= d < |g.dynamics| ==> g.dynamics[d].idPtr != 0)
    && |g.statics| > 0 && g.statics[0].endpointPos == -1
  }

  predicate OffRoot(c: Cursor) {
    c.dptr.Some? || c.sptr > 0
  }

  lemma VisitRootless(b: Build, seg: string, next: bool)
    requires Safe(b) && (Open(b) ==> IsParam(seg)) && Rootless(b.g)
    requires |b.g.statics| + 1 < NODE_LIMIT && |b.g.dynamics| + 1 < NODE_LIMIT
    ensures Rootless(Visit(b, seg, next).g) && OffRoot(Visit(b, seg, next).c)
  {
  }

  lemma {:induction false} SegsRootless(b: Build, segs: seq<string>, j: nat)
    requires j <= |segs| && Safe(b) && !Open(b) && Rootless(b.g)
    requires |b.g.statics| + j < NODE_LIMIT && |b.g.dynamics| + j < NODE_LIMIT
    ensures Rootless(VisitSegs(b, segs, j).g) && (j > 0 ==> OffRoot(VisitSegs(b, segs, j).c))
  {
    hide Rootless, Visit, OffRoot;
    if j > 0 {
      SegsRootless(b, segs, j - 1);
      VisitRootless(VisitSegs(b, segs, j - 1), segs[j - 1], ParamAfter(segs, j));
    }
  }

  lemma FinishRootless(b: Build, r: Route)
    requires Safe(b) && !Open(b) && |b.g.statics| + 1 < NODE_LIMIT
    requires Rootless(b.g) && OffRoot(b.c)
    ensures Rootless(FinishRoute(b, r).g)
  {
  }

  lemma {:induction false} RoutesRootless(b: Build, t: Table, n: nat)
    requires n <= |t| && Safe(b) && !Open(b) && Rootless(b.g)
    requires Fits(|b.g.statics|, t) && Fits(|b.g.dynamics|, t)
    ensures Rootless(VisitRoutes(b, t, n).g)
  {
    hide Rootless, VisitRoutes, VisitRoute, PathSegs, Open, Safe;
    if n == 0 {
      NoRouteVisit(b, t);
    } else {
      NextRouteVisit(b, t, n - 1);
      RoutesRootless(b, t, n - 1);
      RouteRootless(VisitRoutes(b, t, n - 1), t[n - 1]);
    }
  }

  lemma RouteRootless(b: Build, r: Route)
    requires Safe(b) && !Open(b) && Rootless(b.g)
    requires |b.g.statics| + |PathSegs(r.key.path)| + 1 < NODE_LIMIT
    requires |b.g.dynamics| + |PathSegs(r.key.path)| + 1 < NODE_LIMIT
    ensures Rootless(VisitRoute(b, r).g)
  {
    hide Rootless, OffRoot, VisitSegs, FinishRoute, PathSegs;
    var segs := PathSegs(r.key.path);
    SegsRootless(Restart(b), segs, |segs|);
    FinishRootless(VisitSegs(Restart(b), segs, |segs|), r);
  }

  /** Whatever is registered, with "/" or without, well-formed or not: a request for "/" is
      not found. */
  lemma SlashNeverServed(t: Table, verb: nat)
    requires Room(EMPTY_GRAPH, t)
    ensures Ready(Compile(EMPTY_GRAPH, t))
    ensures HandleWritten(Compile(EMPTY_GRAPH, t), "/", verb) == NotFound
    ensures HandleIntended(Compile(EMPTY_GRAPH, t), "/", verb) == NotFound
  {
    hide VisitRoutes;
    BeginsSafe(EMPTY_GRAPH);
    RoutesRootless(Begin(EMPTY_GRAPH), t, |t|);
  }

  /** If the root were an endpoint it would answer whatever the method. */
  lemma RootAnswers(g: Graph, verb: nat)
    requires Ready(g)
    ensures HandleWritten(g, "/", verb) ==
              if g.statics[0].endpointPos == -1 then NotFound else Run(g.callbacks[g.statics[0].endpointPos], [])
  {
  }

  const SLASH := Route(Key("/", 1), Callback(0, 1))

  /** A table that holds "/" alone: the request for it is not found. */
  lemma SlashRegistered()
    ensures Register([SLASH]) == [SLASH] && Room(EMPTY_GRAPH, [SLASH])
    ensures HandleWritten(Compile(EMPTY_GRAPH, [SLASH]), "/", 1) == NotFound
  {
    hide Compile, HandleWritten;
    assert [SLASH][..0] == [] && [] + [SLASH] + [] == [SLASH];
    assert Register([]) == [];
    assert PathSegs("/") == [""] by {
      SplitJoin([""]);
      assert "/"[..0] == "";
    }
    assert SegCount([SLASH]) == 1 by {
      assert SegCount([]) == 0;
    }
    SlashNeverServed([SLASH], 1);
  }
}
