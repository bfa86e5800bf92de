/** `handle_request` as a function of the compiled graph: the walk over the segments of the
    URI, the tail as written, and the tail as intended. */
module Dispatch {
  import opened Text
  import opened RouteTable
  import opened Compiler

  datatype Param = Param(key: string, value: string)

  datatype Answer = NotFound | Run(callback: Callback, params: seq<Param>)

  /** The state of the segment loop; `Lost` once a segment has no link. */
  datatype Walk = Lost(params: seq<Param>) | Found(sroute: nat, droute: Option<nat>, params: seq<Param>)

  /** What the segment loop sees of the URI: no first character, no trailing slash. */
  function UriBody(uri: string): string
    requires uri != ""
  {
    if uri == "/" then "" else uri[1..|uri| - (if uri[|uri| - 1] == '/' then 1 else 0)]
  }

  function UriSegs(uri: string): (us: seq<string>)
    requires uri != ""
    ensures |us| >= 1
  {
    Split(UriBody(uri))
  }

  /** A path is sought under its own segments, with or without one slash behind it. */
  lemma BodyOfPath(path: string)
    requires |path| > 1 && path[0] == '/' && path[|path| - 1] != '/'
    ensures UriBody(path) == path[1..] && UriBody(path + "/") == path[1..]
    ensures UriSegs(path) == UriSegs(path + "/") == PathSegs(path)
  {
    var v := path + "/";
    assert v[|v| - 1] == '/' && v[1..|v| - 1] == path[1..];
    assert path[1..|path|] == path[1..];
  }

  /** Every list of slash-free segments that does not end in an empty one is a URI's own. */
  lemma UriOfSegs(us: seq<string>)
    requires us != [] && us[|us| - 1] != "" && forall j :: 0 <= j < |us| ==> SlashFree(us[j])
    ensures UriSegs("/" + Join(us)) == us
  {
    hide Join, Split, SlashFree, UriBody;
    JoinLast(us);
    SplitJoin(us);
    BodyIs(Join(us));
  }

  lemma BodyIs(body: string)
    requires body != "" && body[|body| - 1] != '/'
    ensures UriBody("/" + body) == body
  {
    var uri := "/" + body;
    assert uri[|uri| - 1] == body[|body| - 1];
    assert uri[1..|uri|] == body;
  }

  lemma {:induction false} JoinLast(us: seq<string>)
    requires us != [] && us[|us| - 1] != "" && SlashFree(us[|us| - 1])
    ensures Join(us) != "" && Join(us)[|Join(us)| - 1] != '/'
  {
    if |us| > 1 {
      JoinLast(us[1..]);
    }
  }

  ghost predicate Ready(g: Graph) {
    g.statics != [] && Linked(g, None)
  }

  ghost predicate InGraph(g: Graph, w: Walk) {
    w.Found? ==> w.sroute < |g.statics| && (w.droute.Some? ==> w.droute.value < |g.dynamics|)
  }

  /** One pass of the segment loop. */
  function Step(g: Graph, w: Walk, seg: string): (w': Walk)
    requires Ready(g) && InGraph(g, w)
    ensures InGraph(g, w')
  {
    match w
    case Lost(_) => w
    case Found(s, Some(d), params) =>
      var node := g.dynamics[d];
      var params' := params + [Param(node.name, seg)];
      if IsTagged(node.idPtr) then Found(s, Some(GetPos(node.idPtr)), params') else Found(node.idPtr, None, params')
    case Found(s, None, params) =>
      if seg !in g.statics[s].links then Lost(params)
      else
        var l := g.statics[s].links[seg];
        if IsTagged(l) then Found(s, Some(GetPos(l)), params) else Found(l, None, params)
  }

  /** The walk over the first `j` segments. */
  function WalkTo(g: Graph, us: seq<string>, j: nat): (w: Walk)
    requires Ready(g) && j <= |us|
    ensures InGraph(g, w)
  {
    if j == 0 then Found(0, None, []) else Step(g, WalkTo(g, us, j - 1), us[j - 1])
  }

  lemma NextWalk(g: Graph, us: seq<string>, j: nat)
    requires Ready(g) && j < |us|
    ensures WalkTo(g, us, j + 1) == Step(g, WalkTo(g, us, j), us[j])
  {
  }

  /** The scan after the head of a group, as written: the guard tests the index for the tag
      instead of the word there, and the whole word is compared with the method. */
  function ScanWritten(endpoints: seq<u32>, k: nat, verb: nat): (r: Option<nat>)
    ensures r.Some? ==> k <= r.value < |endpoints| && endpoints[r.value] == verb
    ensures r.Some? ==> forall i :: k <= i < r.value ==> endpoints[i] != verb
    ensures r == None && |endpoints| <= TAG ==> forall i :: k <= i < |endpoints| ==> endpoints[i] != verb
    decreases |endpoints| - k
  {
    if k >= |endpoints| || IsTagged(k % 0x1_0000_0000) then None
    else if GetVerb(if endpoints[k] == verb then 1 else 0) != 0 then Some(k)
    else ScanWritten(endpoints, k + 1, verb)
  }

  /** The scan as intended: up to the next head, by the method byte. */
  function ScanGroup(endpoints: seq<u32>, k: nat, verb: nat): (r: Option<nat>)
    ensures r.Some? ==> k <= r.value < |endpoints| && GetVerb(endpoints[r.value]) == verb
    ensures r.Some? ==> forall i :: k <= i <= r.value ==> !IsTagged(endpoints[i])
    ensures r.Some? ==> forall i :: k <= i < r.value ==> GetVerb(endpoints[i]) != verb
    ensures r == None ==> forall i :: k <= i < |endpoints| && GetVerb(endpoints[i]) == verb ==>
                            exists j :: k <= j <= i && IsTagged(endpoints[j])
    decreases |endpoints| - k
  {
    if k >= |endpoints| || IsTagged(endpoints[k]) then None
    else if GetVerb(endpoints[k]) == verb then Some(k)
    else ScanGroup(endpoints, k + 1, verb)
  }

  /** Both tails from the static node at `s`: the head of its group, then the scan. */
  function Group(g: Graph, s: nat, verb: nat, params: seq<Param>, written: bool): Answer
    requires Ready(g) && s < |g.statics|
  {
    var h := g.statics[s].endpointPos;
    if h == -1 then NotFound
    else if GetVerb(g.endpoints[h]) == verb then Run(g.callbacks[h], params)
    else
      var r := if written then ScanWritten(g.endpoints, h + 1, verb) else ScanGroup(g.endpoints, h + 1, verb);
      if r.Some? then Run(g.callbacks[r.value], params) else NotFound
  }

  /** The tail as written: it answers from `sroute` even while a parameter is pending. */
  function TailWritten(g: Graph, w: Walk, verb: nat): Answer
    requires Ready(g) && InGraph(g, w)
  {
    if w.Lost? then NotFound else Group(g, w.sroute, verb, w.params, true)
  }

  function TailIntended(g: Graph, w: Walk, verb: nat): Answer
    requires Ready(g) && InGraph(g, w)
  {
    if w.Lost? || w.droute.Some? then NotFound else Group(g, w.sroute, verb, w.params, false)
  }

  /** The answer for "/": the endpoint of the root, whatever its method. */
  function RootAnswer(g: Graph): Answer
    requires Ready(g)
  {
    var h := g.statics[0].endpointPos;
    if h == -1 then NotFound else Run(g.callbacks[h], [])
  }

  /** `handle_request`, as written. */
  function HandleWritten(g: Graph, uri: string, verb: nat): Answer
    requires Ready(g) && uri != ""
  {
    if uri == "/" then RootAnswer(g) else TailWritten(g, WalkTo(g, UriSegs(uri), |UriSegs(uri)|), verb)
  }

  /** `handle_request` with the intended tail. */
  function HandleIntended(g: Graph, uri: string, verb: nat): Answer
    requires Ready(g) && uri != ""
  {
    if uri == "/" then RootAnswer(g) else TailIntended(g, WalkTo(g, UriSegs(uri), |UriSegs(uri)|), verb)
  }

  // ----- the simple router: the table itself

  predicate SegMatches(seg: string, u: string) {
    IsParam(seg) || seg == u
  }

  /** The first `j` segments of a path match those of the URI. */
  predicate CoversTo(segs: seq<string>, us: seq<string>, j: nat) {
    j <= |segs| && j <= |us| && forall k :: 0 <= k < j ==> SegMatches(segs[k], us[k])
  }

  /** A path matches a URI segment by segment. */
  predicate Covers(segs: seq<string>, us: seq<string>) {
    |segs| == |us| && CoversTo(segs, us, |us|)
  }

  /** The parameters bound by the first `j` segments, in order. */
  function Bindings(segs: seq<string>, us: seq<string>, j: nat): seq<Param>
    requires j <= |segs| && j <= |us|
  {
    if j == 0 then [] else
      Bindings(segs, us, j - 1) + if IsParam(segs[j - 1]) then [Param(segs[j - 1][1..], us[j - 1])] else []
  }

  /** Route `i` is registered for this URI and method. */
  predicate Answers(t: Table, us: seq<string>, verb: nat, i: nat) {
    i < |t| && Covers(SegsOf(t, i), us) && t[i].key.verb == verb
  }

  /** How much of the first `j` segments of a path leads to its last node with no pending parameter. */
  function AnchorLen(segs: seq<string>, j: nat): (a: nat)
    requires j <= |segs|
    ensures a <= j
  {
    if j > 0 && ParamAfter(segs, j) then AnchorLen(segs, j - 1) else j
  }

  /** The URI stops after some segments of route `r`; the last node there with no pending
      parameter is the endpoint of a path, and `h` is the first route of that path. */
  predicate Anchored(t: Table, us: seq<string>, r: nat, h: nat) {
    && r < |t| && h < |t| && Head(t, h)
    && CoversTo(SegsOf(t, r), us, |us|)
    && SegsOf(t, h) == SegsOf(t, r)[..AnchorLen(SegsOf(t, r), |us|)]
  }

  /** Some route after `h` that is not the first of its path has this method. */
  ghost predicate Stray(t: Table, h: nat, verb: nat) {
    exists k :: h < k < |t| && !Head(t, k) && t[k].key.verb == verb
  }

  /** Which route the written tail runs from the group headed by `h`: the head itself, or the
      first route after it with this method that is not the first of its path. */
  ghost predicate Picks(t: Table, h: nat, verb: nat, k: nat) {
    && h <= k < |t| && t[k].key.verb == verb
    && (k > h ==>
          && t[h].key.verb != verb && !Head(t, k)
          && forall i :: h < i < k ==> Head(t, i) || t[i].key.verb != verb)
  }

  /** The requests that the written tail hands to a route it should not: the URI stops just
      before a parameter and a node further up answers, or the path matches but not with
      this method and the scan runs on into a later group. */
  ghost predicate Overruns(t: Table, us: seq<string>, verb: nat) {
    exists r: nat, h: nat :: Anchored(t, us, r, h) &&
      if ParamAfter(SegsOf(t, r), |us|) then t[h].key.verb == verb || Stray(t, h, verb)
      else Stray(t, h, verb) && forall i :: 0 <= i < |t| ==> !Answers(t, us, verb, i)
  }
}
