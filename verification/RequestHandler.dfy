/** The router object: registration, `finalize`, and `handle_request`, updating in place. */
module RequestHandler {
  import opened Text
  import opened RouteTable
  import opened Compiler
  import opened Dispatch

  /** The address of an element of a growable array. Growing the array may move it, so the
      address is good only while the array has the size it had when the address was taken.
      The router takes addresses with `StaticPtr` and `DynamicPtr`, and follows them only with
      `StaticAt`, `DynamicAt`, `PutStatic` and `PutDynamic`, which ask that they are live. */
  datatype Ptr = Ptr(pos: nat, size: nat)

  predicate Live(p: Ptr, size: nat) {
    p.size == size && p.pos < size
  }

  /** No address outlives the growth of its array. */
  lemma StaleAfterGrowth(p: Ptr, size: nat, more: nat)
    requires Live(p, size) && more > 0
    ensures !Live(p, size + more)
  {
  }

  function PosOf(p: Option<Ptr>): Option<nat> {
    if p.Some? then Some(p.value.pos) else None
  }

  class RequestHandler {
    var staticRoutes: seq<StaticNode>
    var dynamicRoutes: seq<DynamicNode>
    var endpoints: seq<u32>
    var callbacks: seq<Callback>
    var routers: Table

    function Tables(): Graph
      reads this
    {
      Graph(staticRoutes, dynamicRoutes, endpoints, callbacks)
    }

    ghost predicate Valid()
      reads this
    {
      Linked(Tables(), None) && Sorted(routers)
    }

    constructor ()
      ensures Valid() && Tables() == EMPTY_GRAPH && routers == []
    {
      staticRoutes, dynamicRoutes, endpoints, callbacks, routers := [], [], [], [], [];
    }

    /** `renew` is what the map does with a key that it already has. */
    method AddRoute(r: Route, renew: bool)
      requires Valid()
      modifies this`routers
      ensures Valid() && routers == Put(old(routers), r, renew)
    {
      PutSorted(routers, r, renew);
      routers := Put(routers, r, renew);
    }

    function StaticPtr(pos: nat): (p: Ptr)
      requires pos < |staticRoutes|
      reads this
      ensures Live(p, |staticRoutes|) && p.pos == pos
    {
      Ptr(pos, |staticRoutes|)
    }

    function DynamicPtr(pos: nat): (p: Ptr)
      requires pos < |dynamicRoutes|
      reads this
      ensures Live(p, |dynamicRoutes|) && p.pos == pos
    {
      Ptr(pos, |dynamicRoutes|)
    }

    function StaticAt(p: Ptr): StaticNode
      requires Live(p, |staticRoutes|)
      reads this
    {
      staticRoutes[p.pos]
    }

    function DynamicAt(p: Ptr): DynamicNode
      requires Live(p, |dynamicRoutes|)
      reads this
    {
      dynamicRoutes[p.pos]
    }

    method PutStatic(p: Ptr, node: StaticNode)
      requires Live(p, |staticRoutes|)
      modifies this`staticRoutes
      ensures staticRoutes == old(staticRoutes)[p.pos := node] && Live(p, |staticRoutes|)
    {
      staticRoutes := staticRoutes[p.pos := node];
    }

    method PutDynamic(p: Ptr, node: DynamicNode)
      requires Live(p, |dynamicRoutes|)
      modifies this`dynamicRoutes
      ensures dynamicRoutes == old(dynamicRoutes)[p.pos := node] && Live(p, |dynamicRoutes|)
    {
      dynamicRoutes := dynamicRoutes[p.pos := node];
    }

    method CreateStaticRoute() returns (id: u32)
      requires |staticRoutes| + 1 < NODE_LIMIT
      modifies this`staticRoutes
      ensures staticRoutes == old(staticRoutes) + [NEW_STATIC] && id == |old(staticRoutes)|
    {
      staticRoutes := staticRoutes + [NEW_STATIC];
      id := |staticRoutes| - 1;
    }

    method CreateDynamicRoute() returns (id: u32)
      requires |dynamicRoutes| + 1 < NODE_LIMIT
      modifies this`dynamicRoutes
      ensures dynamicRoutes == old(dynamicRoutes) + [NEW_DYNAMIC] && id == Tagged(|old(dynamicRoutes)|)
    {
      dynamicRoutes := dynamicRoutes + [NEW_DYNAMIC];
      id := Tagged(|dynamicRoutes| - 1);
    }

    method CreateEndpoint(word: u32, callback: Callback) returns (pos: nat)
      modifies this`endpoints, this`callbacks
      ensures endpoints == old(endpoints) + [Tagged(word)] && callbacks == old(callbacks) + [callback]
      ensures pos == |old(endpoints)|
    {
      endpoints := endpoints + [Tagged(word)];
      callbacks := callbacks + [callback];
      pos := |endpoints| - 1;
    }

    method AppendEndpoint(word: u32, callback: Callback)
      modifies this`endpoints, this`callbacks
      ensures endpoints == old(endpoints) + [word] && callbacks == old(callbacks) + [callback]
    {
      endpoints := endpoints + [word];
      callbacks := callbacks + [callback];
    }

    method AddEndpoint(sptr: Ptr, word: u32, callback: Callback)
      requires Linked(Tables(), None) && Live(sptr, |staticRoutes|)
      modifies this`endpoints, this`callbacks, this`staticRoutes
      ensures Tables() == Compiler.AddEndpoint(old(Tables()), sptr.pos, word, callback)
    {
      if StaticAt(sptr).endpointPos == -1 {
        var pos := CreateEndpoint(word, callback);
        PutStatic(sptr, StaticAt(sptr).(endpointPos := pos));
      } else {
        AppendEndpoint(word, callback);
      }
    }

    /** The state of the route loop as a value. */
    function State(sptr: Ptr, dptr: Option<Ptr>, prevId: u32): Build
      reads this
    {
      Build(Tables(), Cursor(prevId, sptr.pos, PosOf(dptr)))
    }

    /** No pointer the loop may still follow is stale. */
    predicate Fresh(sptr: Ptr, dptr: Option<Ptr>)
      reads this
    {
      if dptr.Some? then Live(dptr.value, |dynamicRoutes|) else Live(sptr, |staticRoutes|)
    }

    /** The segment loop's body for a segment reached on a dynamic node. */
    method VisitDynamic(substr: string, paramNext: bool, sptr: Ptr, dptr: Ptr, prevId: u32)
      returns (sptr': Ptr, dptr': Option<Ptr>, prevId': u32)
      requires Safe(State(sptr, Some(dptr), prevId)) && Live(dptr, |dynamicRoutes|)
      requires Open(State(sptr, Some(dptr), prevId)) ==> IsParam(substr)
      requires |staticRoutes| + 1 < NODE_LIMIT && |dynamicRoutes| + 1 < NODE_LIMIT
      modifies this`staticRoutes, this`dynamicRoutes
      ensures State(sptr', dptr', prevId') ==
                VisitValue(old(State(sptr, Some(dptr), prevId)), substr, paramNext)
      ensures Fresh(sptr', dptr')
    {
      sptr', dptr', prevId' := sptr, Some(dptr), prevId;
      if DynamicAt(dptr).idPtr != UNSET {
        prevId' := DynamicAt(dptr).idPtr;
        if IsTagged(prevId') {
          dptr' := Some(DynamicPtr(GetPos(prevId')));
        } else {
          sptr', dptr' := StaticPtr(prevId'), None;
        }
        return;
      }

      var id := CreateStaticRoute();
      PutDynamic(dptr, DynamicAt(dptr).(idPtr := id));
      if DynamicAt(dptr).name == "" {
        PutDynamic(dptr, DynamicAt(dptr).(name := substr[1..]));
      }

      if paramNext {
        id := CreateDynamicRoute();
        // the vector grew, so the node is found again through the id of the current node
        var again := DynamicPtr(GetPos(prevId));
        prevId' := id;
        PutDynamic(again, DynamicAt(again).(idPtr := id));
        dptr' := Some(DynamicPtr(GetPos(id)));
      } else {
        prevId' := DynamicAt(dptr).idPtr;
        sptr', dptr' := StaticPtr(prevId'), None;
      }
    }

    /** The segment loop's body for a segment reached on a static node. */
    method VisitStatic(substr: string, paramNext: bool, sptr: Ptr, prevId: u32)
      returns (sptr': Ptr, dptr': Option<Ptr>, prevId': u32)
      requires Safe(State(sptr, None, prevId)) && Live(sptr, |staticRoutes|)
      requires |staticRoutes| + 1 < NODE_LIMIT && |dynamicRoutes| + 1 < NODE_LIMIT
      modifies this`staticRoutes, this`dynamicRoutes
      ensures State(sptr', dptr', prevId') == VisitKey(old(State(sptr, None, prevId)), substr, paramNext)
      ensures Fresh(sptr', dptr')
    {
      sptr', dptr' := sptr, None;
      var id: u32;
      if substr in StaticAt(sptr).links {
        id := StaticAt(sptr).links[substr];
      } else if paramNext {
        id := CreateDynamicRoute();
        var node := StaticAt(sptr);
        PutStatic(sptr, node.(links := node.links[substr := id]));
      } else {
        id := CreateStaticRoute();
        // the vector grew, so the node is found again through the id of the current node
        sptr' := StaticPtr(prevId);
        var node := StaticAt(sptr');
        PutStatic(sptr', node.(links := node.links[substr := id]));
      }

      if IsTagged(id) {
        dptr' := Some(DynamicPtr(GetPos(id)));
      } else {
        sptr' := StaticPtr(id);
      }
      prevId' := id;
    }

    /** The segment loop's body, once the segment is cut. */
    method VisitSegment(substr: string, paramNext: bool, sptr: Ptr, dptr: Option<Ptr>, prevId: u32)
      returns (sptr': Ptr, dptr': Option<Ptr>, prevId': u32)
      requires Safe(State(sptr, dptr, prevId)) && Fresh(sptr, dptr)
      requires Open(State(sptr, dptr, prevId)) ==> IsParam(substr)
      requires |staticRoutes| + 1 < NODE_LIMIT && |dynamicRoutes| + 1 < NODE_LIMIT
      modifies this`staticRoutes, this`dynamicRoutes
      ensures State(sptr', dptr', prevId') == Visit(old(State(sptr, dptr, prevId)), substr, paramNext)
      ensures Fresh(sptr', dptr')
    {
      if dptr.Some? {
        sptr', dptr', prevId' := VisitDynamic(substr, paramNext, sptr, dptr.value, prevId);
      } else {
        sptr', dptr', prevId' := VisitStatic(substr, paramNext, sptr, prevId);
      }
    }

    /** The segment loop's body for segment `j` of a path. */
    method VisitNext(substr: string, paramNext: bool, sptr: Ptr, dptr: Option<Ptr>, prevId: u32,
                     ghost b0: Build, ghost segs: seq<string>, ghost j: nat)
      returns (sptr': Ptr, dptr': Option<Ptr>, prevId': u32)
      requires Safe(b0) && !Open(b0) && j < |segs| && substr == segs[j] && paramNext == ParamAfter(segs, j + 1)
      requires |b0.g.statics| + |segs| < NODE_LIMIT && |b0.g.dynamics| + |segs| < NODE_LIMIT
      requires State(sptr, dptr, prevId) == VisitSegs(b0, segs, j) && Fresh(sptr, dptr)
      modifies this`staticRoutes, this`dynamicRoutes
      ensures State(sptr', dptr', prevId') == VisitSegs(b0, segs, j + 1) && Fresh(sptr', dptr')
    {
      NextVisit(b0, segs, j);
      sptr', dptr', prevId' := VisitSegment(substr, paramNext, sptr, dptr, prevId);
    }

    /** The segment loop's body for the piece of `p` from `start` to `end`, with its look-ahead. */
    method VisitPiece(p: string, start: nat, end: nat, sptr: Ptr, dptr: Option<Ptr>, prevId: u32,
                      ghost b0: Build, ghost segs: seq<string>, ghost j: nat)
      returns (sptr': Ptr, dptr': Option<Ptr>, prevId': u32)
      requires start <= end <= |p| && j < |segs| && p[start..end] == segs[j]
      requires ParamAfter(segs, j + 1) == ParamAt(p, end + 1)
      requires Safe(b0) && !Open(b0)
      requires |b0.g.statics| + |segs| < NODE_LIMIT && |b0.g.dynamics| + |segs| < NODE_LIMIT
      requires State(sptr, dptr, prevId) == VisitSegs(b0, segs, j) && Fresh(sptr, dptr)
      modifies this`staticRoutes, this`dynamicRoutes
      ensures State(sptr', dptr', prevId') == VisitSegs(b0, segs, j + 1) && Fresh(sptr', dptr')
    {
      hide *;
      var substr := p[start..end];
      var paramNext := ParamAt(p, end + 1);
      sptr', dptr', prevId' := VisitNext(substr, paramNext, sptr, dptr, prevId, b0, segs, j);
    }

    /** The segment loop of `finalize` over the path `p`, cut in place from `base` on. */
    method VisitPieces(p: string, base: nat, sptr0: Ptr, dptr0: Option<Ptr>, prevId0: u32,
                       ghost b0: Build, ghost segs: seq<string>)
      returns (sptr: Ptr, dptr: Option<Ptr>, prevId: u32)
      requires base <= |p| && segs == Split(p[base..|p|])
      requires Safe(b0) && !Open(b0)
      requires |b0.g.statics| + |segs| < NODE_LIMIT && |b0.g.dynamics| + |segs| < NODE_LIMIT
      requires State(sptr0, dptr0, prevId0) == b0 && Fresh(sptr0, dptr0)
      modifies this`staticRoutes, this`dynamicRoutes
      ensures State(sptr, dptr, prevId) == VisitSegs(b0, segs, |segs|) && Fresh(sptr, dptr)
    {
      hide *;
      sptr, dptr, prevId := sptr0, dptr0, prevId0;
      ghost var j := 0;
      NoVisit(b0, segs);
      OffsetZero(segs);
      var start, end := base, base;
      while end <= |p|
        invariant j <= |segs| && start == base + Offset(segs, j)
        invariant if j < |segs| then start <= end <= start + |segs[j]| && end <= |p| else end > |p|
        invariant State(sptr, dptr, prevId) == VisitSegs(b0, segs, j) && Fresh(sptr, dptr)
        decreases |p| - end
      {
        CutGoesOn(p, base, |p|, segs, j, start, end);
        if end < |p| && p[end] != '/' {
          end := end + 1;
          continue;
        }
        CutEnds(p, base, |p|, segs, j, start, end);
        sptr, dptr, prevId := VisitPiece(p, start, end, sptr, dptr, prevId, b0, segs, j);
        start := end + 1;
        end, j := end + 1, j + 1;
      }
    }

    /** The segments of one stored path: one trailing and one leading slash dropped. */
    method VisitPath(path: string, sptr0: Ptr, dptr0: Option<Ptr>, prevId0: u32)
      returns (sptr: Ptr, dptr: Option<Ptr>, prevId: u32)
      requires path != ""
      requires Safe(State(sptr0, dptr0, prevId0)) && !Open(State(sptr0, dptr0, prevId0)) && Fresh(sptr0, dptr0)
      requires |staticRoutes| + |PathSegs(path)| < NODE_LIMIT && |dynamicRoutes| + |PathSegs(path)| < NODE_LIMIT
      modifies this`staticRoutes, this`dynamicRoutes
      ensures State(sptr, dptr, prevId) ==
                VisitSegs(old(State(sptr0, dptr0, prevId0)), PathSegs(path), |PathSegs(path)|)
      ensures Fresh(sptr, dptr)
    {
      var p := path;
      if p[|p| - 1] == '/' {
        p := p[..|p| - 1];
      }
      var start := if p != "" && p[0] == '/' then 1 else 0;
      assert p[start..|p|] == if start == 0 then p else p[1..];
      sptr, dptr, prevId := VisitPieces(p, start, sptr0, dptr0, prevId0,
                                          State(sptr0, dptr0, prevId0), PathSegs(path));
    }

    /** What follows the segment loop of one route. */
    method EndRoute(route: Route, sptr0: Ptr, dptr: Option<Ptr>, prevId: u32) returns (sptr: Ptr)
      requires Safe(State(sptr0, dptr, prevId)) && !Open(State(sptr0, dptr, prevId)) && Fresh(sptr0, dptr)
      requires |staticRoutes| + 1 < NODE_LIMIT
      modifies this`staticRoutes, this`dynamicRoutes, this`endpoints, this`callbacks
      ensures State(sptr, dptr, prevId) == FinishRoute(old(State(sptr0, dptr, prevId)), route)
      ensures |dynamicRoutes| == old(|dynamicRoutes|)
    {
      sptr := sptr0;
      var word: u32 := route.key.verb % 0x1_0000_0000;
      if dptr.Some? {
        var id := CreateStaticRoute();
        PutDynamic(dptr.value, DynamicAt(dptr.value).(idPtr := id));
        sptr := StaticPtr(id);
      }
      AddEndpoint(sptr, word, route.callback);
    }

    /** One pass of the route loop of `finalize`. */
    method FinalizeRoute(route: Route, dptr0: Option<Ptr>, ghost b0: Build)
      returns (sptr: Ptr, dptr: Option<Ptr>, prevId: u32)
      requires route.key.path != ""
      requires b0.g == Tables() && b0.c.dptr == PosOf(dptr0) && Safe(b0) && !Open(b0)
      requires dptr0.Some? ==> Live(dptr0.value, |dynamicRoutes|)
      requires |staticRoutes| + |PathSegs(route.key.path)| + 1 < NODE_LIMIT
      requires |dynamicRoutes| + |PathSegs(route.key.path)| + 1 < NODE_LIMIT
      modifies this`staticRoutes, this`dynamicRoutes, this`endpoints, this`callbacks
      ensures State(sptr, dptr, prevId) == VisitRoute(b0, route)
      ensures dptr.Some? ==> Live(dptr.value, |dynamicRoutes|)
    {
      sptr, prevId := StaticPtr(0), 0;
      assert State(sptr, dptr0, prevId) == Restart(b0);
      sptr, dptr, prevId := VisitPath(route.key.path, sptr, dptr0, prevId);
      sptr := EndRoute(route, sptr, dptr, prevId);
    }

    /** The pass for route `n`, after the passes for the routes before it. */
    method FinalizeNext(n: nat, sptr0: Ptr, dptr0: Option<Ptr>, prevId0: u32, ghost b0: Build)
      returns (sptr: Ptr, dptr: Option<Ptr>, prevId: u32)
      requires n < |routers| && routers[n].key.path != ""
      requires Safe(b0) && !Open(b0) && Fits(|b0.g.statics|, routers) && Fits(|b0.g.dynamics|, routers)
      requires State(sptr0, dptr0, prevId0) == VisitRoutes(b0, routers, n)
      requires dptr0.Some? ==> Live(dptr0.value, |dynamicRoutes|)
      modifies this`staticRoutes, this`dynamicRoutes, this`endpoints, this`callbacks
      ensures State(sptr, dptr, prevId) == VisitRoutes(b0, routers, n + 1)
      ensures dptr.Some? ==> Live(dptr.value, |dynamicRoutes|)
    {
      NextRouteVisit(b0, routers, n);
      sptr, dptr, prevId := FinalizeRoute(routers[n], dptr0, VisitRoutes(b0, routers, n));
    }

    /** The route loop of `finalize`, in the order of the map. */
    method FinalizeRoutes(sptr0: Ptr, prevId0: u32, ghost b0: Build)
      returns (sptr: Ptr, ghost dptr: Option<Ptr>, prevId: u32)
      requires Safe(b0) && !Open(b0) && State(sptr0, None, prevId0) == b0
      requires Fits(|b0.g.statics|, routers) && Fits(|b0.g.dynamics|, routers)
      requires forall i :: 0 <= i < |routers| ==> routers[i].key.path != ""
      modifies this`staticRoutes, this`dynamicRoutes, this`endpoints, this`callbacks
      ensures State(sptr, dptr, prevId) == VisitRoutes(b0, routers, |routers|)
    {
      hide *;
      var current: Option<Ptr> := None;
      sptr, prevId := sptr0, prevId0;
      NoRouteVisit(b0, routers);
      var n := 0;
      while n < |routers|
        invariant n <= |routers|
        invariant State(sptr, current, prevId) == VisitRoutes(b0, routers, n)
        invariant current.Some? ==> Live(current.value, |dynamicRoutes|)
      {
        sptr, current, prevId := FinalizeNext(n, sptr, current, prevId, b0);
        n := n + 1;
      }
      dptr := current;
    }

    /** `finalize`: the root, then every route. */
    method Finalize()
      requires Valid() && Room(Tables(), routers)
      requires forall i :: 0 <= i < |routers| ==> routers[i].key.path != ""
      modifies this
      ensures Valid() && routers == []
      ensures Tables() == Compile(old(Tables()), old(routers))
    {
      hide VisitRoutes, Safe, Open;
      BeginsSafe(Tables());
      staticRoutes := staticRoutes + [NEW_STATIC];
      var sptr := StaticPtr(0);
      ghost var b0 := State(sptr, None, 0);
      assert b0 == Begin(old(Tables()));
      var prevId;
      ghost var dptr;
      sptr, dptr, prevId := FinalizeRoutes(sptr, 0, b0);
      routers := [];
      assert Tables() == Compile(old(Tables()), old(routers));
    }

    /** The segment loop's body of `handle_request`; `found` is false when it gives up. */
    method StepRequest(substr: string, sroute: nat, droute: Option<nat>, params: seq<Param>)
      returns (found: bool, sroute': nat, droute': Option<nat>, params': seq<Param>)
      requires Valid() && staticRoutes != [] && InGraph(Tables(), Found(sroute, droute, params))
      ensures (if found then Found(sroute', droute', params') else Lost(params')) ==
                Step(Tables(), Found(sroute, droute, params), substr)
    {
      found, sroute', droute', params' := true, sroute, droute, params;
      if droute.Some? {
        var node := dynamicRoutes[droute.value];
        params' := params + [Param(node.name, substr)];
        if IsTagged(node.idPtr) {
          droute' := Some(GetPos(node.idPtr));
        } else {
          sroute', droute' := node.idPtr, None;
        }
      } else if substr !in staticRoutes[sroute].links {
        found := false;
      } else {
        var id := staticRoutes[sroute].links[substr];
        if IsTagged(id) {
          droute' := Some(GetPos(id));
        } else {
          sroute' := id;
        }
      }
    }

    /** `handle_request` as written. The callback that runs and the parameters it is given
        are returned. */
    method HandleRequest(uri: string, verb: nat) returns (answer: Answer)
      requires Valid() && staticRoutes != [] && uri != "" && verb < 256
      ensures answer == HandleWritten(Tables(), uri, verb)
    {
      var sroute: nat, droute: Option<nat> := 0, None;
      if uri == "/" {
        var pos := staticRoutes[sroute].endpointPos;
        return if pos == -1 then NotFound else Run(callbacks[pos], []);
      }

      var size := |uri| - if uri[|uri| - 1] == '/' then 1 else 0;
      var start, params := 1, [];
      ghost var g, us, j := Tables(), UriSegs(uri), 0;
      assert Ready(g) && us == Split(uri[1..size]);
      var end := start;
      while end <= size
        invariant j <= |us| && start == 1 + Offset(us, j)
        invariant if j < |us| then start <= end <= start + |us[j]| && end <= size else end > size
        invariant WalkTo(g, us, j) == Found(sroute, droute, params)
        decreases size - end
      {
        hide *;
        CutGoesOn(uri, 1, size, us, j, start, end);
        if end < size && uri[end] != '/' {
          end := end + 1;
          continue;
        }
        CutEnds(uri, 1, size, us, j, start, end);
        var substr := uri[start..end];
        NextWalk(g, us, j);
        var found;
        found, sroute, droute, params := StepRequest(substr, sroute, droute, params);
        if !found {
          LostStays(g, us, j + 1, |us|);
          return NotFound;
        }
        start := end + 1;
        end, j := end + 1, j + 1;
      }
      answer := RunGroup(sroute, verb, params);
    }

    /** The tail of `handle_request`: the head of the group, then the scan as written. */
    method RunGroup(sroute: nat, verb: nat, params: seq<Param>) returns (answer: Answer)
      requires Valid() && sroute < |staticRoutes| && verb < 256
      ensures answer == Group(Tables(), sroute, verb, params, true)
    {
      var pos := staticRoutes[sroute].endpointPos;
      if pos == -1 {
        return NotFound;
      }
      if GetVerb(endpoints[pos]) == verb {
        return Run(callbacks[pos], params);
      }
      var start: nat := pos + 1;
      while start < |endpoints| && !IsTagged(start % 0x1_0000_0000)
        invariant pos + 1 <= start <= |endpoints|
        invariant ScanWritten(endpoints, pos + 1, verb) == ScanWritten(endpoints, start, verb)
      {
        if GetVerb(if endpoints[start] == verb then 1 else 0) != 0 {
          return Run(callbacks[start], params);
        }
        start := start + 1;
      }
      return NotFound;
    }
  }

  /** The life of the router in `server`: routes are added one by one, then `run` compiles them. */
  method Boot(rs: seq<Route>) returns (h: RequestHandler)
    requires DistinctKeys(rs) && Room(EMPTY_GRAPH, Register(rs))
    requires forall r :: r in rs ==> r.key.path != ""
    ensures fresh(h) && h.Valid() && h.routers == []
    ensures h.Tables() == Compile(EMPTY_GRAPH, Register(rs))
  {
    h := new RequestHandler();
    var n := 0;
    while n < |rs|
      invariant n <= |rs| && fresh(h) && h.Valid()
      invariant h.Tables() == EMPTY_GRAPH && h.routers == Register(rs[..n])
    {
      NextKeyNew(rs, n);
      PutSorted(h.routers, rs[n], false);
      h.AddRoute(rs[n], false);
      n := n + 1;
    }
    assert rs[..n] == rs;
    forall i | 0 <= i < |h.routers| ensures h.routers[i].key.path != "" {
      RegisterOnly(rs, i);
    }
    h.Finalize();
  }

  lemma {:induction false} LostStays(g: Graph, us: seq<string>, j: nat, n: nat)
    requires Ready(g) && j <= n <= |us| && WalkTo(g, us, j).Lost?
    ensures WalkTo(g, us, n).Lost?
    decreases n
  {
    if j < n {
      LostStays(g, us, j, n - 1);
    }
  }
}
