/** `finalize` compiles a well-formed table: the graph invariant holds after every route,
    and no route moves the nodes of an earlier one. */
module CompilerCorrect {
  import opened Text
  import opened RouteTable
  import opened Compiler
  import opened GraphInvariant

  /** `loc'` moves no prefix of `loc`. */
  ghost predicate Keeps(loc: Places, loc': Places) {
    forall p :: p in loc ==> p in loc' && loc'[p] == loc[p]
  }

  /** The state after the first `j` segments of route `i`. */
  ghost predicate Midway(t: Table, i: nat, j: nat, b: Build, loc: Places) {
    && i < |t| && j <= |SegsOf(t, i)|
    && Compiled(t, i, b.g, loc) && Standing(b, loc, At(SegsOf(t, i), j))
  }

  /** While the segments of route `i` are visited the groups stay those of the earlier routes. */
  lemma SameGroups(t: Table, i: nat, g0: Graph, loc0: Places, g: Graph, loc: Places)
    requires i < |t| && Located(g0, loc0) && Located(g, loc)
    requires Placed(t, i, loc0) && Grouped(t, i, g0, loc0)
    requires SameEndpoints(g0, loc0, g, loc) && Keeps(loc0, loc)
    ensures Grouped(t, i, g, loc)
  {
    forall p | p in loc && !IsTagged(loc[p]) ensures FirstOf(t, i, p, g.statics[loc[p]].endpointPos) {
      if p !in loc0 {
        forall k | 0 <= k < i ensures Full(SegsOf(t, k)) != p {
          assert IsPrefix(t, k, |SegsOf(t, k)|, Full(SegsOf(t, k)));
        }
      } else {
        assert loc0[p] == loc[p];
      }
    }
  }

  lemma MidwayStep(t: Table, i: nat, j: nat, b: Build, loc: Places, b': Build) returns (loc': Places)
    requires WellFormed(t) && Midway(t, i, j, b, loc) && j < |SegsOf(t, i)|
    requires Safe(b) && |b.g.statics| + 1 < NODE_LIMIT && |b.g.dynamics| + 1 < NODE_LIMIT
    requires (Open(b) ==> IsParam(SegsOf(t, i)[j])) ==>
               b' == Visit(b, SegsOf(t, i)[j], ParamAfter(SegsOf(t, i), j + 1))
    ensures Midway(t, i, j + 1, b', loc') && Keeps(loc, loc')
  {
    loc' := VisitKeeps(t, i, j, b, loc);
    SameGroups(t, i, b.g, loc, b'.g, loc');
  }

  lemma KeepsChain(loc0: Places, loc1: Places, loc2: Places)
    requires Keeps(loc0, loc1) && Keeps(loc1, loc2)
    ensures Keeps(loc0, loc2)
  {
  }

  ghost predicate Reached(t: Table, i: nat, j: nat, loc0: Places, b: Build) {
    exists loc :: Midway(t, i, j, b, loc) && Keeps(loc0, loc)
  }

  lemma ReachedStep(t: Table, i: nat, j: nat, b: Build, loc: Places)
    requires WellFormed(t) && i < |t| && j < |SegsOf(t, i)|
    requires Safe(b) && !Open(b)
    requires |b.g.statics| + j + 1 < NODE_LIMIT && |b.g.dynamics| + j + 1 < NODE_LIMIT
    requires Reached(t, i, j, loc, VisitSegs(b, SegsOf(t, i), j))
    ensures Reached(t, i, j + 1, loc, VisitSegs(b, SegsOf(t, i), j + 1))
  {
    var b1, b2 := VisitSegs(b, SegsOf(t, i), j), VisitSegs(b, SegsOf(t, i), j + 1);
    var loc1 :| Midway(t, i, j, b1, loc1) && Keeps(loc, loc1);
    var loc2 := MidwayStep(t, i, j, b1, loc1, b2);
    KeepsChain(loc, loc1, loc2);
  }

  /** The segment loop takes the cursor along route `i` and moves no prefix on the way. */
  lemma {:induction false} SegsKeep(t: Table, i: nat, j: nat, b: Build, loc: Places)
    requires WellFormed(t) && i < |t| && j <= |SegsOf(t, i)|
    requires Safe(b) && !Open(b) && Reached(t, i, 0, loc, b)
    requires |b.g.statics| + j < NODE_LIMIT && |b.g.dynamics| + j < NODE_LIMIT
    ensures Reached(t, i, j, loc, VisitSegs(b, SegsOf(t, i), j))
  {
    hide VisitSegs, Reached, WellFormed, Safe, Open, SegsOf;
    if j == 0 {
      NoVisit(b, SegsOf(t, i));
    } else {
      SegsKeep(t, i, j - 1, b, loc);
      ReachedStep(t, i, j - 1, b, loc);
    }
  }

  /** A path registered earlier is the one just before, since the table is sorted. */
  lemma HeadIffFirst(t: Table, i: nat, e: int)
    requires Sorted(t) && i < |t| && FirstOf(t, i, Full(SegsOf(t, i)), e)
    requires forall k :: 0 <= k <= i ==> GoodPath(t[k].key.path)
    ensures Head(t, i) <==> e == -1
  {
    if e >= 0 {
      SameNodeSamePath(t[e].key.path, t[i].key.path);
      Adjacent(t, e, i, i - 1);
    } else if i > 0 {
      assert Full(SegsOf(t, i - 1)) != Full(SegsOf(t, i));
      SameNodeSamePath(t[i - 1].key.path, t[i].key.path);
    }
  }

  lemma FirstOfNext(t: Table, i: nat, p: Prefix, e: int)
    requires i < |t| && FirstOf(t, i, p, e)
    ensures p != Full(SegsOf(t, i)) ==> FirstOf(t, i + 1, p, e)
    ensures p == Full(SegsOf(t, i)) ==> FirstOf(t, i + 1, p, if e == -1 then i else e)
  {
  }

  /** What is placed is placed with all its prefixes. */
  lemma {:induction false} PrefixesPlaced(g: Graph, loc: Places, segs: seq<string>, j: nat, k: nat)
    requires Tree(g, loc) && k <= j <= |segs| && At(segs, j) in loc
    ensures At(segs, k) in loc
    decreases j
  {
    if k < j {
      HungAt(g, loc, At(segs, j - 1), segs[j - 1]);
      PrefixesPlaced(g, loc, segs, j - 1, k);
    }
  }

  lemma NextPlaced(t: Table, i: nat, loc: Places)
    requires i < |t| && Placed(t, i, loc)
    requires forall k :: 0 <= k <= |SegsOf(t, i)| ==> At(SegsOf(t, i), k) in loc
    ensures Placed(t, i + 1, loc)
  {
  }

  lemma EndpointTree(g: Graph, loc: Places, s: nat, word: u32, callback: Callback)
    requires Tree(g, loc) && s < |g.statics| && Linked(g, None)
    ensures Tree(AddEndpoint(g, s, word, callback), loc)
  {
    var g' := AddEndpoint(g, s, word, callback);
    assert forall l: u32 :: LinkOk(g, l) ==> LinkOk(g', l);
    assert forall k :: 0 <= k < |g.statics| ==> g'.statics[k].links == g.statics[k].links;
    assert Located(g', loc);
    assert Hung(g', loc) by {
      forall p, s | Snoc(p, s) in loc ensures p in loc && Edge(g', loc[p], s, loc[Snoc(p, s)]) {
        HungAt(g, loc, p, s);
      }
    }
    forall p | p in loc ensures Closed(g', loc, p) {
      assert Closed(g, loc, p);
    }
  }

  /** What `add_endpoint` does to the groups: a first route of its path opens one. */
  lemma EndpointWord(t: Table, i: nat, g: Graph, s: nat)
    requires Sorted(t) && i < |t| && Linked(g, None) && s < |g.statics| && |g.endpoints| == i
    requires forall k :: 0 <= k <= i ==> GoodPath(t[k].key.path)
    requires FirstOf(t, i, Full(SegsOf(t, i)), g.statics[s].endpointPos)
    ensures
      var g' := AddEndpoint(g, s, t[i].key.verb % 0x1_0000_0000, t[i].callback);
      && g'.endpoints == g.endpoints + [Word(t, i)] && g'.callbacks == g.callbacks + [t[i].callback]
      && FirstOf(t, i + 1, Full(SegsOf(t, i)), g'.statics[s].endpointPos)
      && forall k :: 0 <= k < |g.statics| && k != s ==> g'.statics[k] == g.statics[k]
  {
    HeadIffFirst(t, i, g.statics[s].endpointPos);
    FirstOfNext(t, i, Full(SegsOf(t, i)), g.statics[s].endpointPos);
  }

  lemma GroupedNext(t: Table, i: nat, g: Graph, loc: Places, full: Prefix, g': Graph)
    requires i < |t| && full == Full(SegsOf(t, i))
    requires Located(g, loc) && Located(g', loc) && Grouped(t, i, g, loc)
    requires full in loc && !IsTagged(loc[full])
    requires LinkOk(g, loc[full]) && LinkOk(g', loc[full]) && |g.statics| <= |g'.statics|
    requires g'.endpoints == g.endpoints + [Word(t, i)] && g'.callbacks == g.callbacks + [t[i].callback]
    requires FirstOf(t, i + 1, full, g'.statics[loc[full]].endpointPos)
    requires forall k :: 0 <= k < |g.statics| && k != loc[full] ==> g'.statics[k] == g.statics[k]
    ensures Grouped(t, i + 1, g', loc)
  {
    hide FirstOf, PathSegs, Word;
    forall p | p in loc && !IsTagged(loc[p]) ensures FirstOf(t, i + 1, p, g'.statics[loc[p]].endpointPos) {
      assert LinkOk(g, loc[p]);
      if p != full {
        assert loc[p] != loc[full];
        FirstOfNext(t, i, p, g.statics[loc[p]].endpointPos);
      }
    }
    forall k | 0 <= k <= i ensures g'.endpoints[k] == Word(t, k) && g'.callbacks[k] == t[k].callback {
      assert k < i ==> g.endpoints[k] == Word(t, k);
    }
  }

  lemma RouteEnd(t: Table, i: nat, b: Build, loc: Places)
    requires WellFormed(t) && i < |t| && Safe(b) && |b.g.statics| + 1 < NODE_LIMIT
    requires Tree(b.g, loc) && Planned(t, loc) && Grouped(t, i, b.g, loc)
    requires Standing(b, loc, Full(SegsOf(t, i)))
    ensures !Open(b) && b.c.dptr == None
    ensures
      var b' := FinishRoute(b, t[i]);
      Tree(b'.g, loc) && Grouped(t, i + 1, b'.g, loc) && b'.c.dptr == None
  {
    var full := Full(SegsOf(t, i));
    assert IsPrefix(t, i, |SegsOf(t, i)|, full);
    assert !IsTagged(loc[full]);
    var w: u32 := t[i].key.verb % 0x1_0000_0000;
    var g' := AddEndpoint(b.g, loc[full], w, t[i].callback);
    EndpointTree(b.g, loc, loc[full], w, t[i].callback);
    assert forall k :: 0 <= k <= i ==> GoodPath(t[k].key.path);
    EndpointWord(t, i, b.g, loc[full]);
    GroupedNext(t, i, b.g, loc, full, g');
    assert FinishRoute(b, t[i]) == b.(g := g');
  }

  /** One pass of the route loop: the invariant extends to route `i`, no earlier prefix
      moves, and no dynamic pointer is left behind. */
  lemma RouteKeeps(t: Table, i: nat, b0: Build, loc0: Places) returns (loc: Places)
    requires WellFormed(t) && i < |t|
    requires Safe(b0) && !Open(b0)
    requires |b0.g.statics| + |SegsOf(t, i)| + 1 < NODE_LIMIT && |b0.g.dynamics| + |SegsOf(t, i)| + 1 < NODE_LIMIT
    requires Compiled(t, i, b0.g, loc0) && Standing(b0, loc0, Root)
    ensures
      var b := FinishRoute(VisitSegs(b0, SegsOf(t, i), |SegsOf(t, i)|), t[i]);
      Compiled(t, i + 1, b.g, loc) && b.c.dptr == None
    ensures Keeps(loc0, loc)
  {
    var segs := SegsOf(t, i);
    var b := VisitSegs(b0, segs, |segs|);
    assert Midway(t, i, 0, b0, loc0) && Keeps(loc0, loc0);
    SegsKeep(t, i, |segs|, b0, loc0);
    loc :| Midway(t, i, |segs|, b, loc) && Keeps(loc0, loc);
    forall k | 0 <= k <= |segs| ensures At(segs, k) in loc {
      PrefixesPlaced(b.g, loc, segs, |segs|, k);
    }
    NextPlaced(t, i, loc);
    assert IsPrefix(t, i, |segs|, Full(segs));
    RouteEnd(t, i, b, loc);
  }

  lemma NothingCompiled(t: Table)
    requires WellFormed(t)
    ensures Compiled(t, 0, Begin(EMPTY_GRAPH).g, map[Root := 0])
  {
    var loc: Places := map[Root := 0];
    forall p, i: nat, j: nat | p in loc && IsPrefix(t, i, j, p)
      ensures IsTagged(loc[p]) == ParamAfter(SegsOf(t, i), j)
    {
      assert GoodPath(t[i].key.path);
    }
    assert Planned(t, loc);
  }

  /** The state `b` at the boundary before route `n`. */
  ghost predicate Boundary(t: Table, n: nat, b: Build, loc: Places) {
    && Safe(b) && !Open(b) && b.c.dptr == None
    && n <= |t| && Grown(Begin(EMPTY_GRAPH).g, b.g, SegCount(t[..n]) + n)
    && Compiled(t, n, b.g, loc)
  }

  lemma NextRoute(t: Table, n: nat, b: Build, loc: Places) returns (loc': Places)
    requires WellFormed(t) && n < |t| && Boundary(t, n, b, loc)
    requires |b.g.statics| + |SegsOf(t, n)| + 1 < NODE_LIMIT && |b.g.dynamics| + |SegsOf(t, n)| + 1 < NODE_LIMIT
    ensures Boundary(t, n + 1, VisitRoute(b, t[n]), loc')
  {
    SegCountStep(t, n);
    assert Standing(Restart(b), loc, Root);
    loc' := RouteKeeps(t, n, Restart(b), loc);
  }

  /** The state of `finalize` on a fresh handler after the first `n` routes. */
  function AfterRoutes(t: Table, n: nat): Build
    requires WellFormed(t) && n <= |t|
  {
    VisitRoutes(Begin(EMPTY_GRAPH), t, n)
  }

  lemma FirstBoundary(t: Table)
    requires WellFormed(t)
    ensures Boundary(t, 0, AfterRoutes(t, 0), map[Root := 0])
  {
    hide Compiled;
    NothingCompiled(t);
  }

  lemma NextBoundary(t: Table, n: nat, loc0: Places) returns (loc: Places)
    requires WellFormed(t) && n < |t|
    requires Boundary(t, n, AfterRoutes(t, n), loc0)
    ensures Boundary(t, n + 1, AfterRoutes(t, n + 1), loc)
  {
    hide Boundary, VisitRoutes, VisitRoute, Safe, Open, Compiled;
    BeginsSafe(EMPTY_GRAPH);
    NextRouteVisit(Begin(EMPTY_GRAPH), t, n);
    loc := NextRoute(t, n, AfterRoutes(t, n), loc0);
  }

  /** The route loop of `finalize` on a fresh handler. At every route boundary `dptr` is null. */
  lemma {:induction false} RoutesCompiled(t: Table, n: nat) returns (loc: Places)
    requires WellFormed(t) && n <= |t|
    ensures Boundary(t, n, AfterRoutes(t, n), loc)
  {
    hide Boundary, AfterRoutes, WellFormed;
    if n == 0 {
      FirstBoundary(t);
      loc := map[Root := 0];
    } else {
      var loc0 := RoutesCompiled(t, n - 1);
      loc := NextBoundary(t, n - 1, loc0);
    }
  }

  /** The graph of a well-formed table, whole. */
  lemma FinalizeCompiles(t: Table) returns (loc: Places)
    requires WellFormed(t)
    ensures Room(EMPTY_GRAPH, t) && Compiled(t, |t|, Compile(EMPTY_GRAPH, t), loc)
  {
    loc := RoutesCompiled(t, |t|);
  }
}
