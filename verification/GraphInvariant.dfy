/** What the compiled graph means: every prefix of a registered path has its own node, and
    the graph has exactly the edges between those prefixes. */
module GraphInvariant {
  import opened Text
  import opened RouteTable
  import opened Compiler

  /** The link that names the node of each compiled prefix. */
  type Places = map<Prefix, u32>

  ghost predicate Edge(g: Graph, l: u32, seg: string, l': u32)
    requires LinkOk(g, l)
  {
    if IsTagged(l) then
      var d := g.dynamics[GetPos(l)];
      seg == ":" + d.name && d.idPtr == l'
    else
      !IsParam(seg) && seg in g.statics[l].links && g.statics[l].links[seg] == l'
  }

  ghost predicate Located(g: Graph, loc: Places) {
    && Root in loc && loc[Root] == 0
    && (forall p :: p in loc ==> LinkOk(g, loc[p]))
    && (forall p, q :: p in loc && q in loc && loc[p] == loc[q] ==> p == q)
  }

  /** Every placed prefix hangs under the one before it. */
  ghost predicate Hung(g: Graph, loc: Places)
    requires Located(g, loc)
  {
    forall p, s :: Snoc(p, s) in loc ==> p in loc && Edge(g, loc[p], s, loc[Snoc(p, s)])
  }

  /** Every link of the node of `p` leads to a placed prefix. */
  ghost predicate Closed(g: Graph, loc: Places, p: Prefix)
    requires Located(g, loc) && p in loc
  {
    if IsTagged(loc[p]) then
      var d := g.dynamics[GetPos(loc[p])];
      if d.idPtr == UNSET then d.name == "" else Snoc(p, ":" + d.name) in loc
    else
      forall s :: s in g.statics[loc[p]].links ==> Snoc(p, s) in loc
  }

  /** `loc` places every prefix on a node of its own, the links of the graph are exactly
      the steps from a prefix to a longer one, and so the graph is a tree. */
  ghost predicate Tree(g: Graph, loc: Places) {
    && Located(g, loc)
    && Hung(g, loc)
    && forall p {:trigger Closed(g, loc, p)} :: p in loc ==> Closed(g, loc, p)
  }

  ghost predicate IsPrefix(t: Table, i: nat, j: nat, p: Prefix) {
    i < |t| && j <= |SegsOf(t, i)| && At(SegsOf(t, i), j) == p
  }

  ghost predicate IsKnown(t: Table, p: Prefix) {
    exists i: nat, j: nat :: IsPrefix(t, i, j, p)
  }

  /** Only prefixes of the table are placed, dynamic nodes where a parameter follows. */
  ghost predicate Planned(t: Table, loc: Places) {
    && (forall p, i: nat, j: nat :: p in loc && IsPrefix(t, i, j, p) ==>
          IsTagged(loc[p]) == ParamAfter(SegsOf(t, i), j))
    && (forall p {:trigger IsKnown(t, p)} :: p in loc && p != Root ==> IsKnown(t, p))
  }

  /** All prefixes of the first `n` routes are placed. */
  ghost predicate Placed(t: Table, n: nat, loc: Places) {
    forall p, i, j :: 0 <= i < n && 0 <= j && IsPrefix(t, i, j, p) ==> p in loc
  }

  /** `e` is the first of the first `n` routes whose whole path is `p`, or -1. */
  ghost predicate FirstOf(t: Table, n: nat, p: Prefix, e: int)
    requires n <= |t|
  {
    && -1 <= e < n
    && (e >= 0 ==> Full(SegsOf(t, e)) == p)
    && (forall k :: 0 <= k < n && (e == -1 || k < e) ==> Full(SegsOf(t, k)) != p)
  }

  /** The endpoint word of route `k`: tagged when it is the first of its path. */
  function Word(t: Table, k: nat): u32
    requires k < |t|
  {
    var w: u32 := t[k].key.verb % 0x1_0000_0000;
    if Head(t, k) then Tagged(w) else w
  }

  /** Endpoints and callbacks list the first `n` routes in order, and every static node
      points at the head of its group. */
  ghost predicate Grouped(t: Table, n: nat, g: Graph, loc: Places)
    requires n <= |t| && Located(g, loc)
  {
    && |g.endpoints| == |g.callbacks| == n
    && (forall k :: 0 <= k < n ==> g.endpoints[k] == Word(t, k) && g.callbacks[k] == t[k].callback)
    && (forall p {:trigger FirstOf(t, n, p, g.statics[loc[p]].endpointPos)} :: p in loc && !IsTagged(loc[p]) ==>
          FirstOf(t, n, p, g.statics[loc[p]].endpointPos))
  }

  /** The graph after the first `n` routes of `t`. */
  ghost predicate Compiled(t: Table, n: nat, g: Graph, loc: Places) {
    n <= |t| && Tree(g, loc) && Planned(t, loc) && Placed(t, n, loc) && Grouped(t, n, g, loc)
  }

  /** The cursor stands on the node of `p`. */
  ghost predicate Standing(b: Build, loc: Places, p: Prefix) {
    && p in loc && b.c.prev == loc[p]
    && if IsTagged(loc[p]) then b.c.dptr == Some(GetPos(loc[p])) else b.c.dptr == None && b.c.sptr == loc[p]
  }

  /** `loc'` places at most `p` beside the prefixes of `loc`, and moves none of them. */
  ghost predicate Extends(loc: Places, loc': Places, p: Prefix) {
    && loc'.Keys == loc.Keys + {p}
    && forall q :: q in loc ==> loc'[q] == loc[q]
  }

  /** From `g` to `g'` no endpoint changed, and a new node has none. */
  ghost predicate SameEndpoints(g: Graph, loc: Places, g': Graph, loc': Places)
    requires Located(g, loc) && Located(g', loc')
  {
    && g'.endpoints == g.endpoints && g'.callbacks == g.callbacks
    && forall p :: p in loc' && !IsTagged(loc'[p]) ==>
         g'.statics[loc'[p]].endpointPos ==
           if p in loc && !IsTagged(loc[p]) then g.statics[loc[p]].endpointPos else -1
  }

  /** Two routes that share a prefix agree on what follows it. */
  lemma SharedPrefix(t: Table, i: nat, j: nat, i': nat, j': nat, p: Prefix)
    requires WellFormed(t) && IsPrefix(t, i, j, p) && IsPrefix(t, i', j', p)
    ensures j == j' && ParamAfter(SegsOf(t, i), j) == ParamAfter(SegsOf(t, i'), j)
    ensures ParamAfter(SegsOf(t, i), j) ==> SegsOf(t, i)[j] == SegsOf(t, i')[j]
  {
    SamePrefix(SegsOf(t, i), j, SegsOf(t, i'), j');
    assert Compatible(SegsOf(t, i), SegsOf(t, i'));
  }

  lemma PlannedExtends(t: Table, loc: Places, loc': Places, i: nat, j: nat, p: Prefix)
    requires WellFormed(t) && Planned(t, loc) && Extends(loc, loc', p)
    requires IsPrefix(t, i, j, p) && IsTagged(loc'[p]) == ParamAfter(SegsOf(t, i), j)
    ensures Planned(t, loc')
  {
    forall q, i': nat, j': nat | q in loc' && IsPrefix(t, i', j', q)
      ensures IsTagged(loc'[q]) == ParamAfter(SegsOf(t, i'), j')
    {
      if q == p {
        SharedPrefix(t, i, j, i', j', p);
      }
    }
  }

  /** `g'` is `g` with the fresh node `id` hung under the node of `p` at `seg`. */
  ghost predicate Grew(g: Graph, loc: Places, p: Prefix, seg: string, id: u32, g': Graph)
    requires Located(g, loc) && p in loc
  {
    && |g.statics| <= |g'.statics| && |g.dynamics| <= |g'.dynamics|
    && !LinkOk(g, id) && LinkOk(g', id)
    && (forall s :: 0 <= s < |g.statics| && s != loc[p] ==> g'.statics[s] == g.statics[s])
    && (forall d :: 0 <= d < |g.dynamics| && !(IsTagged(loc[p]) && d == GetPos(loc[p])) ==>
          g'.dynamics[d] == g.dynamics[d])
    && (if IsTagged(id) then g'.dynamics[GetPos(id)] == NEW_DYNAMIC else g'.statics[id] == NEW_STATIC)
    && (if IsTagged(loc[p]) then
          && g.dynamics[GetPos(loc[p])].idPtr == UNSET
          && seg == ":" + g'.dynamics[GetPos(loc[p])].name && g'.dynamics[GetPos(loc[p])].idPtr == id
        else
          var node := g.statics[loc[p]];
          && !IsParam(seg) && seg !in node.links
          && g'.statics[loc[p]] == node.(links := node.links[seg := id]))
  }

  lemma HungAt(g: Graph, loc: Places, p: Prefix, s: string)
    requires Tree(g, loc) && Snoc(p, s) in loc
    ensures p in loc && Edge(g, loc[p], s, loc[Snoc(p, s)]) && LinkOk(g, loc[Snoc(p, s)])
    ensures IsTagged(loc[p]) ==> g.dynamics[GetPos(loc[p])].idPtr != UNSET
  {
  }

  lemma GrewLocated(g: Graph, loc: Places, p: Prefix, seg: string, id: u32, g': Graph)
    requires Tree(g, loc) && p in loc && Grew(g, loc, p, seg, id, g')
    ensures Snoc(p, seg) !in loc
    ensures Located(g', loc[Snoc(p, seg) := id])
    ensures forall q :: q in loc ==> LinkOk(g, loc[q]) && loc[q] != id
  {
    if Snoc(p, seg) in loc {
      HungAt(g, loc, p, seg);
      assert false;
    }
    forall q | q in loc ensures LinkOk(g, loc[q]) && loc[q] != id && LinkOk(g', loc[q]) {
    }
  }

  lemma GrewHung(g: Graph, loc: Places, p: Prefix, seg: string, id: u32, g': Graph)
    requires Tree(g, loc) && p in loc && Grew(g, loc, p, seg, id, g')
    requires Located(g', loc[Snoc(p, seg) := id])
    requires forall q :: q in loc ==> LinkOk(g, loc[q]) && loc[q] != id
    ensures Hung(g', loc[Snoc(p, seg) := id])
  {
    var loc' := loc[Snoc(p, seg) := id];
    forall q, s | Snoc(q, s) in loc' ensures q in loc' && Edge(g', loc'[q], s, loc'[Snoc(q, s)]) {
      if Snoc(q, s) == Snoc(p, seg) {
        assert LinkOk(g, loc[p]);
      } else {
        assert q in loc && Edge(g, loc[q], s, loc[Snoc(q, s)]);
        assert LinkOk(g, loc[q]);
        HungAt(g, loc, q, s);
        assert q != p ==> loc[q] != loc[p];
      }
    }
  }

  lemma GrewClosed(g: Graph, loc: Places, p: Prefix, seg: string, id: u32, g': Graph, loc': Places, q: Prefix)
    requires Located(g, loc) && p in loc && Grew(g, loc, p, seg, id, g')
    requires loc' == loc[Snoc(p, seg) := id] && Located(g', loc')
    requires q in loc ==> Closed(g, loc, q)
    requires q in loc' && (q in loc ==> LinkOk(g, loc[q]) && loc[q] != id)
    ensures Closed(g', loc', q)
  {
    if q != Snoc(p, seg) && q != p {
      assert loc[q] != loc[p];
    }
  }

  lemma GrewTree(g: Graph, loc: Places, p: Prefix, seg: string, id: u32, g': Graph)
    requires Tree(g, loc) && p in loc && Grew(g, loc, p, seg, id, g')
    ensures Snoc(p, seg) !in loc && Tree(g', loc[Snoc(p, seg) := id])
    ensures g'.endpoints == g.endpoints && g'.callbacks == g.callbacks ==>
              SameEndpoints(g, loc, g', loc[Snoc(p, seg) := id])
  {
    var loc' := loc[Snoc(p, seg) := id];
    GrewLocated(g, loc, p, seg, id, g');
    GrewHung(g, loc, p, seg, id, g');
    forall q | q in loc' ensures Closed(g', loc', q) {
      assert q in loc ==> Closed(g, loc, q);
      GrewClosed(g, loc, p, seg, id, g', loc', q);
    }
    forall q | q in loc' && !IsTagged(loc'[q])
      ensures g'.statics[loc'[q]].endpointPos ==
                if q in loc && !IsTagged(loc[q]) then g.statics[loc[q]].endpointPos else -1
    {
      if q != Snoc(p, seg) {
        assert LinkOk(g, loc[q]);
      }
    }
  }

  lemma NewKey(b: Build, loc: Places, p: Prefix, seg: string, paramNext: bool) returns (id: u32)
    requires Safe(b) && Located(b.g, loc) && Standing(b, loc, p) && !IsTagged(loc[p])
    requires |b.g.statics| + 1 < NODE_LIMIT && |b.g.dynamics| + 1 < NODE_LIMIT
    requires !IsParam(seg) && seg !in b.g.statics[loc[p]].links
    ensures IsTagged(id) == paramNext
    ensures
      var b' := VisitKey(b, seg, paramNext);
      && Grew(b.g, loc, p, seg, id, b'.g) && b'.c == Follow(b.c, id)
      && b'.g.endpoints == b.g.endpoints && b'.g.callbacks == b.g.callbacks
  {
    id := if paramNext then Tagged(|b.g.dynamics|) else |b.g.statics|;
  }

  lemma NewValue(b: Build, loc: Places, p: Prefix, seg: string, paramNext: bool) returns (id: u32)
    requires Safe(b) && Located(b.g, loc) && Standing(b, loc, p) && IsTagged(loc[p])
    requires |b.g.statics| + 1 < NODE_LIMIT && |b.g.dynamics| + 1 < NODE_LIMIT
    requires IsParam(seg) && Open(b) && b.g.dynamics[GetPos(loc[p])].name == ""
    ensures IsTagged(id) == paramNext
    ensures
      var b' := VisitValue(b, seg, paramNext);
      && Grew(b.g, loc, p, seg, id, b'.g) && b'.c == Follow(b.c, id)
      && b'.g.endpoints == b.g.endpoints && b'.g.callbacks == b.g.callbacks
  {
    id := if paramNext then Tagged(|b.g.dynamics|) else |b.g.statics|;
    assert seg == ":" + seg[1..];
  }

  /** One pass of the segment loop takes the cursor to the node of the longer prefix,
      which is hung there if it was not. */
  lemma VisitTree(b: Build, loc: Places, p: Prefix, seg: string, next: bool) returns (loc': Places)
    requires Safe(b) && Tree(b.g, loc) && Standing(b, loc, p)
    requires |b.g.statics| + 1 < NODE_LIMIT && |b.g.dynamics| + 1 < NODE_LIMIT
    requires IsParam(seg) <==> IsTagged(loc[p])
    requires IsTagged(loc[p]) && !Open(b) ==> seg == ":" + b.g.dynamics[GetPos(loc[p])].name
    requires Snoc(p, seg) in loc ==> IsTagged(loc[Snoc(p, seg)]) == next
    ensures Extends(loc, loc', Snoc(p, seg)) && IsTagged(loc'[Snoc(p, seg)]) == next
    ensures
      var b' := Visit(b, seg, next);
      Tree(b'.g, loc') && Standing(b', loc', Snoc(p, seg)) && SameEndpoints(b.g, loc, b'.g, loc')
  {
    assert Closed(b.g, loc, p);
    if Snoc(p, seg) in loc {
      HungAt(b.g, loc, p, seg);
      loc' := loc;
    } else {
      var id;
      if IsTagged(loc[p]) {
        id := NewValue(b, loc, p, seg, next);
      } else {
        id := NewKey(b, loc, p, seg, next);
      }
      loc' := loc[Snoc(p, seg) := id];
      GrewTree(b.g, loc, p, seg, id, Visit(b, seg, next).g);
    }
  }

  lemma ParentPrefix(t: Table, i: nat, j: nat, p: Prefix, s: string)
    requires IsPrefix(t, i, j, Snoc(p, s))
    ensures j > 0 && IsPrefix(t, i, j - 1, p) && SegsOf(t, i)[j - 1] == s
  {
  }

  /** The one value placed under a parameter is the parameter of every route there. */
  lemma KnownValue(t: Table, i: nat, j: nat, loc: Places, p: Prefix, s: string)
    requires WellFormed(t) && Planned(t, loc) && IsPrefix(t, i, j, p)
    requires Snoc(p, s) in loc && ParamAfter(SegsOf(t, i), j)
    ensures s == SegsOf(t, i)[j]
  {
    hide WellFormed, PathSegs, IsParam;
    assert IsKnown(t, Snoc(p, s));
    var i': nat, j': nat :| IsPrefix(t, i', j', Snoc(p, s));
    ParentPrefix(t, i', j', p, s);
    SharedPrefix(t, i, j, i', j' - 1, p);
  }

  /** One pass of the segment loop moves the cursor from a prefix of a route to the next
      longer one, and leaves the node of every prefix placed before where it was. */
  lemma VisitKeeps(t: Table, i: nat, j: nat, b: Build, loc: Places) returns (loc': Places)
    requires WellFormed(t) && i < |t| && j < |SegsOf(t, i)|
    requires Safe(b) && Tree(b.g, loc) && Planned(t, loc) && Standing(b, loc, At(SegsOf(t, i), j))
    requires |b.g.statics| + 1 < NODE_LIMIT && |b.g.dynamics| + 1 < NODE_LIMIT
    ensures Open(b) ==> IsParam(SegsOf(t, i)[j])
    ensures Extends(loc, loc', At(SegsOf(t, i), j + 1)) && Planned(t, loc')
    ensures
      var b' := Visit(b, SegsOf(t, i)[j], ParamAfter(SegsOf(t, i), j + 1));
      && Tree(b'.g, loc') && Standing(b', loc', At(SegsOf(t, i), j + 1))
      && SameEndpoints(b.g, loc, b'.g, loc')
  {
    var segs := SegsOf(t, i);
    var p, seg, next := At(segs, j), segs[j], ParamAfter(segs, j + 1);
    assert IsPrefix(t, i, j, p) && IsPrefix(t, i, j + 1, Snoc(p, seg));
    if IsTagged(loc[p]) && !Open(b) {
      assert Closed(b.g, loc, p);
      KnownValue(t, i, j, loc, p, ":" + b.g.dynamics[GetPos(loc[p])].name);
    }
    loc' := VisitTree(b, loc, p, seg, next);
    PlannedExtends(t, loc, loc', i, j + 1, Snoc(p, seg));
  }
}
