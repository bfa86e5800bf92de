/** The graph that `finalize` builds from the route table, one segment at a time. */
module Compiler {
  import opened Text
  import opened RouteTable

  type u32 = x: int | 0 <= x < 0x1_0000_0000

  /** The top bit of a word. */
  const TAG := 0x8000_0000

  const UNSET: u32 := 0xFFFF_FFFF

  /** `w & 0x80000000`: a link to a dynamic node, or the first word of a group of endpoints. */
  predicate IsTagged(w: u32) { w >= TAG }

  /** `w & 0x7FFFFFFF` */
  function GetPos(w: u32): nat { if w < TAG then w else w - TAG }

  /** `w | 0x80000000` */
  function Tagged(w: u32): u32 { if w < TAG then w + TAG else w }

  /** The low byte of a word. */
  function GetVerb(w: u32): nat { w % 256 }

  datatype StaticNode = StaticNode(links: map<string, u32>, endpointPos: int)

  datatype DynamicNode = DynamicNode(name: string, idPtr: u32)

  datatype Graph = Graph(
    statics: seq<StaticNode>,
    dynamics: seq<DynamicNode>,
    endpoints: seq<u32>,
    callbacks: seq<Callback>)

  /** Where the route loop stands: the id of the current node, and its two node pointers
      as positions in the two vectors. */
  datatype Cursor = Cursor(prev: u32, sptr: nat, dptr: Option<nat>)

  datatype Build = Build(g: Graph, c: Cursor)

  const NEW_STATIC := StaticNode(map[], -1)
  const NEW_DYNAMIC := DynamicNode("", UNSET)
  const EMPTY_GRAPH := Graph([], [], [], [])

  predicate LinkOk(g: Graph, l: u32) {
    if IsTagged(l) then l != UNSET && GetPos(l) < |g.dynamics| else l < |g.statics|
  }

  /** No link leaves the vectors; `loose` may be the only dynamic node without a link. */
  ghost predicate Linked(g: Graph, loose: Option<nat>) {
    && (forall s, k :: 0 <= s < |g.statics| && k in g.statics[s].links ==> LinkOk(g, g.statics[s].links[k]))
    && (forall d :: 0 <= d < |g.dynamics| ==>
          if g.dynamics[d].idPtr == UNSET then loose == Some(d) else LinkOk(g, g.dynamics[d].idPtr))
    && |g.endpoints| == |g.callbacks|
    && (forall s :: 0 <= s < |g.statics| ==> -1 <= g.statics[s].endpointPos < |g.endpoints|)
  }

  /** The current node is a parameter whose value has not been linked yet. */
  predicate Open(b: Build) {
    && b.c.dptr.Some?
    && b.c.dptr.value < |b.g.dynamics|
    && b.g.dynamics[b.c.dptr.value].idPtr == UNSET
  }

  ghost predicate Safe(b: Build) {
    && Linked(b.g, if Open(b) then b.c.dptr else None)
    && b.c.sptr < |b.g.statics| < NODE_LIMIT
    && |b.g.dynamics| < NODE_LIMIT
    && (b.c.dptr.Some? ==> b.c.dptr.value < |b.g.dynamics|)
    && (b.c.dptr == None ==> b.c.prev == b.c.sptr)
    && (Open(b) ==> b.c.prev == Tagged(b.c.dptr.value))
  }

  predicate Grown(g: Graph, g': Graph, n: nat) {
    && |g.statics| <= |g'.statics| <= |g.statics| + n
    && |g.dynamics| <= |g'.dynamics| <= |g.dynamics| + n
    && |g.endpoints| <= |g'.endpoints| <= |g.endpoints| + n
  }

  /** A cursor on the node that `id` names. */
  function Follow(c: Cursor, id: u32): Cursor {
    if IsTagged(id) then Cursor(id, c.sptr, Some(GetPos(id))) else Cursor(id, id, None)
  }

  /** A pass of the segment loop that starts on a dynamic node. */
  function VisitValue(b: Build, seg: string, paramNext: bool): (b': Build)
    requires Safe(b) && b.c.dptr.Some? && (Open(b) ==> IsParam(seg))
    requires |b.g.statics| + 1 < NODE_LIMIT && |b.g.dynamics| + 1 < NODE_LIMIT
    ensures Safe(b') && Grown(b.g, b'.g, 1)
    ensures Open(b') ==> paramNext
  {
    var d := b.c.dptr.value;
    if !Open(b) then
      b.(c := Follow(b.c, b.g.dynamics[d].idPtr))
    else
      var node := b.g.dynamics[d];
      var name := if node.name == "" then seg[1..] else node.name;
      var statics := b.g.statics + [NEW_STATIC];
      if paramNext then
        var id := Tagged(|b.g.dynamics|);
        Build(b.g.(statics := statics, dynamics := b.g.dynamics[d := DynamicNode(name, id)] + [NEW_DYNAMIC]),
              Follow(b.c, id))
      else
        var id := |b.g.statics|;
        Build(b.g.(statics := statics, dynamics := b.g.dynamics[d := DynamicNode(name, id)]), Follow(b.c, id))
  }

  /** A pass of the segment loop that starts on a static node. */
  function VisitKey(b: Build, seg: string, paramNext: bool): (b': Build)
    requires Safe(b) && b.c.dptr == None
    requires |b.g.statics| + 1 < NODE_LIMIT && |b.g.dynamics| + 1 < NODE_LIMIT
    ensures Safe(b') && Grown(b.g, b'.g, 1)
    ensures Open(b') ==> paramNext
  {
    var node := b.g.statics[b.c.sptr];
    if seg in node.links then
      b.(c := Follow(b.c, node.links[seg]))
    else
      var id: u32 := if paramNext then Tagged(|b.g.dynamics|) else |b.g.statics|;
      var statics := b.g.statics[b.c.sptr := node.(links := node.links[seg := id])];
      if paramNext then
        Build(b.g.(statics := statics, dynamics := b.g.dynamics + [NEW_DYNAMIC]), Follow(b.c, id))
      else
        Build(b.g.(statics := statics + [NEW_STATIC]), Follow(b.c, id))
  }

  /** One pass of the segment loop. */
  function Visit(b: Build, seg: string, paramNext: bool): (b': Build)
    requires Safe(b) && (Open(b) ==> IsParam(seg))
    requires |b.g.statics| + 1 < NODE_LIMIT && |b.g.dynamics| + 1 < NODE_LIMIT
    ensures Safe(b') && Grown(b.g, b'.g, 1)
    ensures Open(b') ==> paramNext
  {
    if b.c.dptr.Some? then VisitValue(b, seg, paramNext) else VisitKey(b, seg, paramNext)
  }

  /** The first `j` passes over the segments of one route. */
  function VisitSegs(b: Build, segs: seq<string>, j: nat): (b': Build)
    requires j <= |segs|
    requires Safe(b) && !Open(b)
    requires |b.g.statics| + j < NODE_LIMIT && |b.g.dynamics| + j < NODE_LIMIT
    ensures Safe(b') && Grown(b.g, b'.g, j)
    ensures Open(b') ==> ParamAfter(segs, j)
  {
    if j == 0 then b else Visit(VisitSegs(b, segs, j - 1), segs[j - 1], ParamAfter(segs, j))
  }

  lemma NoVisit(b: Build, segs: seq<string>)
    requires Safe(b) && !Open(b) && |b.g.statics| < NODE_LIMIT && |b.g.dynamics| < NODE_LIMIT
    ensures VisitSegs(b, segs, 0) == b
  {
  }

  lemma NextVisit(b: Build, segs: seq<string>, j: nat)
    requires j < |segs| && Safe(b) && !Open(b)
    requires |b.g.statics| + |segs| < NODE_LIMIT && |b.g.dynamics| + |segs| < NODE_LIMIT
    ensures Open(VisitSegs(b, segs, j)) ==> IsParam(segs[j])
    ensures VisitSegs(b, segs, j + 1) == Visit(VisitSegs(b, segs, j), segs[j], ParamAfter(segs, j + 1))
  {
  }

  /** `add_endpoint` on the static node at `s`. */
  function AddEndpoint(g: Graph, s: nat, word: u32, callback: Callback): (g': Graph)
    requires s < |g.statics| && Linked(g, None)
    ensures Linked(g', None) && Grown(g, g', 1)
    ensures g'.dynamics == g.dynamics && |g'.statics| == |g.statics|
  {
    var g1 := g.(callbacks := g.callbacks + [callback]);
    if g.statics[s].endpointPos == -1 then
      g1.(endpoints := g.endpoints + [Tagged(word)],
          statics := g.statics[s := g.statics[s].(endpointPos := |g.endpoints|)])
    else
      g1.(endpoints := g.endpoints + [word])
  }

  /** What follows the segment loop of one route. */
  function FinishRoute(b: Build, r: Route): (b': Build)
    requires Safe(b) && !Open(b)
    requires |b.g.statics| + 1 < NODE_LIMIT
    ensures Safe(b') && !Open(b') && Grown(b.g, b'.g, 1)
  {
    var word: u32 := r.key.verb % 0x1_0000_0000;
    if b.c.dptr.Some? then
      var d, id := b.c.dptr.value, |b.g.statics|;
      var g := b.g.(statics := b.g.statics + [NEW_STATIC],
                    dynamics := b.g.dynamics[d := b.g.dynamics[d].(idPtr := id)]);
      Build(AddEndpoint(g, id, word, r.callback), b.c.(sptr := id))
    else
      b.(g := AddEndpoint(b.g, b.c.sptr, word, r.callback))
  }

  /** A path that ends on a dynamic node, which only happens off the well-formed tables: the
      node is given a fresh static node as its value, in place of what it led to, and that one
      gets the endpoint. */
  lemma EndsOnDynamic(b: Build, r: Route)
    requires Safe(b) && !Open(b) && |b.g.statics| + 1 < NODE_LIMIT && b.c.dptr.Some?
    ensures
      var g, g', n := b.g, FinishRoute(b, r).g, |b.g.statics|;
      && |g'.statics| == n + 1 && g'.statics[n] == StaticNode(map[], |g.endpoints|)
      && g'.dynamics == g.dynamics[b.c.dptr.value := g.dynamics[b.c.dptr.value].(idPtr := n)]
      && g'.statics[..n] == g.statics
      && |g'.endpoints| == |g.endpoints| + 1 && g'.callbacks == g.callbacks + [r.callback]
      && IsTagged(g'.endpoints[|g.endpoints|])
      && FinishRoute(b, r).c.dptr == b.c.dptr
  {
  }

  /** The start of a route: back to the root, but with whatever `dptr` was left behind. */
  function Restart(b: Build): (b': Build)
    requires Safe(b) && !Open(b)
    ensures Safe(b') && !Open(b')
  {
    b.(c := b.c.(prev := 0, sptr := 0))
  }

  /** One pass of the route loop. */
  function VisitRoute(b: Build, r: Route): (b': Build)
    requires Safe(b) && !Open(b)
    requires |b.g.statics| + |PathSegs(r.key.path)| + 1 < NODE_LIMIT
    requires |b.g.dynamics| + |PathSegs(r.key.path)| + 1 < NODE_LIMIT
    ensures Safe(b') && !Open(b') && Grown(b.g, b'.g, |PathSegs(r.key.path)| + 1)
  {
    var segs := PathSegs(r.key.path);
    FinishRoute(VisitSegs(Restart(b), segs, |segs|), r)
  }

  lemma SegCountStep(t: Table, n: nat)
    requires n < |t|
    ensures SegCount(t[..n + 1]) == SegCount(t[..n]) + |SegsOf(t, n)|
  {
    assert t[..n + 1][..n] == t[..n];
  }

  lemma {:induction false} SegCountPrefix(t: Table, n: nat)
    requires n <= |t|
    ensures SegCount(t[..n]) <= SegCount(t)
    decreases |t| - n
  {
    if n < |t| {
      SegCountStep(t, n);
      SegCountPrefix(t, n + 1);
    } else {
      assert t[..n] == t;
    }
  }

  /** The first `n` passes of the route loop. */
  function VisitRoutes(b: Build, t: Table, n: nat): (b': Build)
    requires n <= |t|
    requires Safe(b) && !Open(b)
    requires Fits(|b.g.statics|, t) && Fits(|b.g.dynamics|, t)
    ensures Safe(b') && !Open(b')
    ensures Grown(b.g, b'.g, SegCount(t[..n]) + n)
  {
    if n == 0 then b else
      SegCountStep(t, n - 1);
      SegCountPrefix(t, n);
      VisitRoute(VisitRoutes(b, t, n - 1), t[n - 1])
  }

  lemma NoRouteVisit(b: Build, t: Table)
    requires Safe(b) && !Open(b) && Fits(|b.g.statics|, t) && Fits(|b.g.dynamics|, t)
    ensures VisitRoutes(b, t, 0) == b
  {
  }

  lemma NextRouteVisit(b: Build, t: Table, n: nat)
    requires n < |t| && Safe(b) && !Open(b)
    requires Fits(|b.g.statics|, t) && Fits(|b.g.dynamics|, t)
    ensures
      var b1, segs := VisitRoutes(b, t, n), SegsOf(t, n);
      && |b1.g.statics| + |segs| + 1 < NODE_LIMIT && |b1.g.dynamics| + |segs| + 1 < NODE_LIMIT
      && VisitRoutes(b, t, n + 1) == VisitRoute(b1, t[n])
  {
    SegCountStep(t, n);
    SegCountPrefix(t, n + 1);
  }

  /** The state in which `finalize` enters the route loop. */
  function Begin(g: Graph): Build {
    Build(g.(statics := g.statics + [NEW_STATIC]), Cursor(0, 0, None))
  }

  lemma BeginsSafe(g: Graph)
    requires Linked(g, None) && |g.statics| + 1 < NODE_LIMIT && |g.dynamics| < NODE_LIMIT
    ensures Safe(Begin(g)) && !Open(Begin(g))
  {
  }

  ghost predicate Room(g: Graph, t: Table) {
    Fits(|g.statics| + 1, t) && Fits(|g.dynamics|, t)
  }

  /** `finalize`, from the graph `g` and the table `t`. */
  function Compile(g: Graph, t: Table): (g': Graph)
    requires Linked(g, None) && Room(g, t)
    ensures Linked(g', None) && |g'.statics| > |g.statics|
  {
    VisitRoutes(Begin(g), t, |t|).g
  }
}
