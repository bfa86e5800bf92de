/** The compiled router against the table it was compiled from. */
module RouterTheorems {
  import opened Text
  import opened RouteTable
  import opened Compiler
  import opened GraphInvariant
  import opened CompilerCorrect
  import opened Dispatch

  // ----- the walk finds the one matching prefix

  predicate MatchesTo(p: Prefix, us: seq<string>, j: nat)
    requires j <= |us|
  {
    match p
    case Root => j == 0
    case Snoc(q, s) => j > 0 && SegMatches(s, us[j - 1]) && MatchesTo(q, us, j - 1)
  }

  function BindingsOf(p: Prefix, us: seq<string>, j: nat): seq<Param>
    requires j <= |us|
  {
    match p
    case Root => []
    case Snoc(q, s) =>
      if j == 0 then []
      else BindingsOf(q, us, j - 1) + if IsParam(s) then [Param(s[1..], us[j - 1])] else []
  }

  /** The last prefix of `p` on a static node. */
  function Anchor(loc: Places, p: Prefix): Prefix {
    match p
    case Root => p
    case Snoc(q, _) => if p in loc && IsTagged(loc[p]) then Anchor(loc, q) else p
  }

  ghost predicate AtPrefix(g: Graph, loc: Places, us: seq<string>, j: nat, w: Walk, p: Prefix)
    requires j <= |us|
  {
    && p in loc && MatchesTo(p, us, j) && w.Found?
    && Anchor(loc, p) in loc && w.sroute == loc[Anchor(loc, p)]
    && w.droute == (if IsTagged(loc[p]) then Some(GetPos(loc[p])) else None)
    && w.params == BindingsOf(p, us, j)
  }

  /** After `j` segments the walk stands on the only placed prefix that matches them, or
      is lost because there is none. */
  ghost predicate WalkSpec(g: Graph, loc: Places, us: seq<string>, j: nat, w: Walk, p: Prefix)
    requires j <= |us|
  {
    && (w.Found? ==> AtPrefix(g, loc, us, j, w, p))
    && (forall q {:trigger MatchesTo(q, us, j)} :: q in loc && MatchesTo(q, us, j) ==> w.Found? && q == p)
  }

  /** What is placed and matches one segment more hangs under the prefix the walk stands on. */
  lemma OneBelow(g: Graph, loc: Places, us: seq<string>, j: nat, w: Walk, p: Prefix, q: Prefix)
    requires Tree(g, loc) && j < |us| && WalkSpec(g, loc, us, j, w, p)
    requires q in loc && MatchesTo(q, us, j + 1)
    ensures q.Snoc? && q.parent == p && p in loc && w.Found?
    ensures SegMatches(q.seg, us[j]) && Edge(g, loc[p], q.seg, loc[q])
  {
    HungAt(g, loc, q.parent, q.seg);
    assert MatchesTo(q.parent, us, j);
  }

  lemma StepValue(g: Graph, loc: Places, us: seq<string>, j: nat, w: Walk, p: Prefix) returns (p': Prefix)
    requires Ready(g) && Tree(g, loc) && InGraph(g, w) && j < |us|
    requires WalkSpec(g, loc, us, j, w, p) && w.Found? && w.droute.Some?
    ensures WalkSpec(g, loc, us, j + 1, Step(g, w, us[j]), p')
  {
    assert LinkOk(g, loc[p]) && Closed(g, loc, p);
    var d := g.dynamics[w.droute.value];
    p' := Snoc(p, ":" + d.name);
    HungAt(g, loc, p, ":" + d.name);
    assert (":" + d.name)[1..] == d.name;
    assert LinkOk(g, loc[p']);
    forall q | q in loc && MatchesTo(q, us, j + 1) ensures q == p' {
      OneBelow(g, loc, us, j, w, p, q);
    }
  }

  lemma StepKey(g: Graph, loc: Places, us: seq<string>, j: nat, w: Walk, p: Prefix) returns (p': Prefix)
    requires Ready(g) && Tree(g, loc) && InGraph(g, w) && j < |us|
    requires WalkSpec(g, loc, us, j, w, p) && w.Found? && w.droute == None
    ensures WalkSpec(g, loc, us, j + 1, Step(g, w, us[j]), p')
  {
    assert LinkOk(g, loc[p]) && Closed(g, loc, p);
    p' := Snoc(p, us[j]);
    if us[j] in g.statics[loc[p]].links {
      HungAt(g, loc, p, us[j]);
      assert MatchesTo(p', us, j + 1);
    }
    forall q | q in loc && MatchesTo(q, us, j + 1) ensures q == p' && us[j] in g.statics[loc[p]].links {
      OneBelow(g, loc, us, j, w, p, q);
    }
  }

  lemma StepLost(g: Graph, loc: Places, us: seq<string>, j: nat, w: Walk, p: Prefix)
    requires Ready(g) && Tree(g, loc) && j < |us|
    requires WalkSpec(g, loc, us, j, w, p) && w.Lost?
    ensures WalkSpec(g, loc, us, j + 1, w, p)
  {
    forall q | q in loc ensures !MatchesTo(q, us, j + 1) {
      if MatchesTo(q, us, j + 1) {
        OneBelow(g, loc, us, j, w, p, q);
      }
    }
  }

  lemma WalkStep(g: Graph, loc: Places, us: seq<string>, j: nat, p: Prefix) returns (p': Prefix)
    requires Ready(g) && Tree(g, loc) && j < |us|
    requires WalkSpec(g, loc, us, j, WalkTo(g, us, j), p)
    ensures WalkSpec(g, loc, us, j + 1, WalkTo(g, us, j + 1), p')
  {
    var w := WalkTo(g, us, j);
    if w.Lost? {
      StepLost(g, loc, us, j, w, p);
      p' := p;
    } else if w.droute.Some? {
      p' := StepValue(g, loc, us, j, w, p);
    } else {
      p' := StepKey(g, loc, us, j, w, p);
    }
  }

  lemma WalkStarts(g: Graph, loc: Places, us: seq<string>)
    requires Ready(g) && Tree(g, loc)
    ensures WalkSpec(g, loc, us, 0, WalkTo(g, us, 0), Root)
  {
  }

  /** The walk over the first `j` segments ends on the one prefix they match, or nowhere. */
  lemma {:induction false} WalkFinds(g: Graph, loc: Places, us: seq<string>, j: nat) returns (p: Prefix)
    requires Ready(g) && Tree(g, loc) && j <= |us|
    ensures WalkSpec(g, loc, us, j, WalkTo(g, us, j), p)
  {
    hide WalkSpec, WalkTo, Tree, Ready;
    if j == 0 {
      WalkStarts(g, loc, us);
      p := Root;
    } else {
      var q := WalkFinds(g, loc, us, j - 1);
      p := WalkStep(g, loc, us, j - 1, q);
    }
  }

  // ----- from prefixes to routes

  lemma {:induction false} MatchesAt(segs: seq<string>, j: nat, us: seq<string>)
    requires j <= |segs| && j <= |us|
    ensures MatchesTo(At(segs, j), us, j) <==> CoversTo(segs, us, j)
    ensures BindingsOf(At(segs, j), us, j) == Bindings(segs, us, j)
  {
    if j > 0 {
      MatchesAt(segs, j - 1, us);
    }
  }

  lemma {:induction false} MatchLength(segs: seq<string>, k: nat, us: seq<string>, j: nat)
    requires k <= |segs| && j <= |us| && MatchesTo(At(segs, k), us, j)
    ensures k == j
  {
    if k > 0 {
      MatchLength(segs, k - 1, us, j - 1);
    }
  }

  lemma {:induction false} AnchorAt(t: Table, loc: Places, r: nat, j: nat)
    requires WellFormed(t) && Planned(t, loc) && Placed(t, |t|, loc)
    requires r < |t| && j <= |SegsOf(t, r)|
    ensures Anchor(loc, At(SegsOf(t, r), j)) == At(SegsOf(t, r), AnchorLen(SegsOf(t, r), j))
  {
    var segs := SegsOf(t, r);
    assert IsPrefix(t, r, j, At(segs, j));
    if j > 0 && ParamAfter(segs, j) {
      AnchorAt(t, loc, r, j - 1);
    }
  }

  // ----- groups of endpoints

  lemma WordFacts(t: Table, k: nat, verb: nat)
    requires k < |t| && 0 <= t[k].key.verb < 256 && verb < 256
    ensures IsTagged(Word(t, k)) <==> Head(t, k)
    ensures GetVerb(Word(t, k)) == t[k].key.verb
    ensures Word(t, k) == verb <==> !Head(t, k) && t[k].key.verb == verb
  {
  }

  lemma {:induction false} NoHeadBetween(t: Table, h: nat, k: nat)
    requires h <= k < |t|
    requires forall i :: h < i <= k ==> !Head(t, i)
    ensures t[k].key.path == t[h].key.path
    decreases k
  {
    if h < k {
      assert !Head(t, k);
      NoHeadBetween(t, h, k - 1);
    }
  }

  lemma HeadlessInside(t: Table, h: nat, k: nat, i: nat)
    requires Sorted(t) && h < k <= i < |t| && t[h].key.path == t[i].key.path
    ensures !Head(t, k) && t[k].key.path == t[h].key.path
  {
    Adjacent(t, h, i, k);
    Adjacent(t, h, i, k - 1);
  }

  lemma SameKeySameRoute(t: Table, i: nat, k: nat)
    requires Sorted(t) && i < |t| && k < |t| && t[i].key == t[k].key
    ensures i == k
  {
    KeyOrder(t[i].key, t[k].key, t[i].key);
  }

  /** The words and callbacks of the compiled groups. */
  ghost predicate Listed(t: Table, g: Graph) {
    && |g.endpoints| == |g.callbacks| == |t|
    && forall k {:trigger g.endpoints[k]} {:trigger g.callbacks[k]} :: 0 <= k < |t| ==>
         g.endpoints[k] == Word(t, k) && g.callbacks[k] == t[k].callback
  }

  ghost predicate Plain(t: Table) {
    && Sorted(t) && |t| <= TAG
    && forall i {:trigger t[i].key.verb} :: 0 <= i < |t| ==> 0 <= t[i].key.verb < 256
  }

  /** Both scans find a method that is registered for the path of the group. */
  lemma GroupHit(t: Table, g: Graph, s: nat, i: nat, params: seq<Param>, written: bool)
    requires Plain(t) && Listed(t, g) && Ready(g) && s < |g.statics|
    requires 0 <= g.statics[s].endpointPos <= i < |t|
    requires t[g.statics[s].endpointPos].key.path == t[i].key.path
    ensures Group(g, s, t[i].key.verb, params, written) == Run(t[i].callback, params)
  {
    var h: nat, verb: nat := g.statics[s].endpointPos, t[i].key.verb;
    WordFacts(t, h, verb);
    if t[h].key.verb == verb {
      SameKeySameRoute(t, h, i);
    } else {
      WordFacts(t, i, verb);
      HeadlessInside(t, h, i, i);
      assert g.endpoints[i] == verb;
      var r := if written then ScanWritten(g.endpoints, h + 1, verb) else ScanGroup(g.endpoints, h + 1, verb);
      if r == None {
        var j :| h + 1 <= j <= i && IsTagged(g.endpoints[j]);
        WordFacts(t, j, verb);
        HeadlessInside(t, h, j, i);
        assert false;
      }
      assert r.value <= i;
      WordFacts(t, r.value, verb);
      HeadlessInside(t, h, r.value, i);
      SameKeySameRoute(t, r.value, i);
    }
  }

  /** The written scan misses exactly when no later route strays into it. */
  lemma GroupMissWritten(t: Table, g: Graph, s: nat, verb: nat, params: seq<Param>)
    requires Plain(t) && Listed(t, g) && Ready(g) && s < |g.statics| && verb < 256
    requires 0 <= g.statics[s].endpointPos < |t|
    ensures
      var h := g.statics[s].endpointPos;
      Group(g, s, verb, params, true) == NotFound <==> t[h].key.verb != verb && !Stray(t, h, verb)
  {
    var h: nat := g.statics[s].endpointPos;
    WordFacts(t, h, verb);
    var r := ScanWritten(g.endpoints, h + 1, verb);
    if r.Some? {
      WordFacts(t, r.value, verb);
    } else {
      forall k | h < k < |t| ensures Head(t, k) || t[k].key.verb != verb {
        WordFacts(t, k, verb);
        assert g.endpoints[k] != verb;
      }
    }
  }

  /** The intended scan only runs a route of the group. */
  lemma GroupRunIntended(t: Table, g: Graph, s: nat, verb: nat, params: seq<Param>) returns (i: nat)
    requires Plain(t) && Listed(t, g) && Ready(g) && s < |g.statics| && verb < 256
    requires 0 <= g.statics[s].endpointPos < |t|
    requires Group(g, s, verb, params, false) != NotFound
    ensures g.statics[s].endpointPos <= i < |t| && t[i].key.verb == verb
    ensures t[g.statics[s].endpointPos].key.path == t[i].key.path
  {
    var h: nat := g.statics[s].endpointPos;
    WordFacts(t, h, verb);
    if t[h].key.verb == verb {
      i := h;
    } else {
      var r := ScanGroup(g.endpoints, h + 1, verb);
      i := r.value;
      WordFacts(t, i, verb);
      forall k | h < k <= i ensures !Head(t, k) {
        WordFacts(t, k, verb);
        assert !IsTagged(g.endpoints[k]);
      }
      NoHeadBetween(t, h, i);
    }
  }

  /** The two scans of a group agree exactly when the method is registered in the group, or no
      later route strays into the written one. */
  lemma ScansAgreeIff(t: Table, g: Graph, s: nat, verb: nat, params: seq<Param>)
    requires Plain(t) && Listed(t, g) && Ready(g) && s < |g.statics| && verb < 256
    requires 0 <= g.statics[s].endpointPos < |t| && Head(t, g.statics[s].endpointPos)
    ensures
      var h := g.statics[s].endpointPos;
      Group(g, s, verb, params, true) == Group(g, s, verb, params, false) <==>
        HasKey(t, Key(t[h].key.path, verb)) || !Stray(t, h, verb)
  {
    var h: nat := g.statics[s].endpointPos;
    if i :| 0 <= i < |t| && t[i].key == Key(t[h].key.path, verb) {
      if i < h {
        HeadlessInside(t, i, h, h);
      }
      GroupHit(t, g, s, i, params, true);
      GroupHit(t, g, s, i, params, false);
    } else {
      GroupMissWritten(t, g, s, verb, params);
      assert t[h].key.verb != verb;
      if Group(g, s, verb, params, false) != NotFound {
        var i := GroupRunIntended(t, g, s, verb, params);
      }
    }
  }

  // ----- the main results

  /** What the theorems need to know of a compiled well-formed table. */
  ghost predicate Routed(t: Table, g: Graph, loc: Places) {
    && WellFormed(t) && Plain(t) && Ready(g)
    && Compiled(t, |t|, g, loc) && Listed(t, g)
  }

  lemma RoutedTable(t: Table) returns (loc: Places)
    requires WellFormed(t)
    ensures Room(EMPTY_GRAPH, t) && Routed(t, Compile(EMPTY_GRAPH, t), loc)
  {
    loc := FinalizeCompiles(t);
  }

  /** No route answers "/", and no anchor is the root. */
  lemma NoEmptyRoute(t: Table, i: nat)
    requires WellFormed(t) && i < |t|
    ensures SegsOf(t, i) != [""] && !IsParam(SegsOf(t, i)[0])
  {
    assert GoodPath(t[i].key.path);
    PathFromSegs(t[i].key.path);
  }

  lemma RootHasNoEndpoint(t: Table, g: Graph, loc: Places)
    requires Routed(t, g, loc)
    ensures RootAnswer(g) == NotFound
  {
    assert FirstOf(t, |t|, Root, g.statics[loc[Root]].endpointPos);
  }

  lemma FirstIsHead(t: Table, a: Prefix, h: int, i: nat)
    requires WellFormed(t) && FirstOf(t, |t|, a, h) && i < |t| && Full(SegsOf(t, i)) == a
    ensures 0 <= h <= i && Full(SegsOf(t, h)) == a && Head(t, h) && t[h].key.path == t[i].key.path
  {
    assert GoodPath(t[i].key.path) && GoodPath(t[h].key.path);
    SameNodeSamePath(t[h].key.path, t[i].key.path);
    assert h > 0 ==> Full(SegsOf(t, h - 1)) != a;
  }

  /** The head that the node of a path points at is the first route of that path. */
  lemma HeadOf(t: Table, g: Graph, loc: Places, a: Prefix, i: nat)
    requires Routed(t, g, loc) && i < |t| && Full(SegsOf(t, i)) == a
    ensures a in loc && !IsTagged(loc[a]) && LinkOk(g, loc[a])
    ensures
      var h := g.statics[loc[a]].endpointPos;
      0 <= h <= i && Full(SegsOf(t, h)) == a && Head(t, h) && t[h].key.path == t[i].key.path
  {
    assert IsPrefix(t, i, |SegsOf(t, i)|, a);
    assert LinkOk(g, loc[a]);
    assert FirstOf(t, |t|, a, g.statics[loc[a]].endpointPos);
    FirstIsHead(t, a, g.statics[loc[a]].endpointPos, i);
  }

  /** A route that answers is found by the walk and by either tail. */
  lemma Hit(t: Table, g: Graph, loc: Places, us: seq<string>, i: nat)
    requires Routed(t, g, loc) && i < |t| && Answers(t, us, t[i].key.verb, i)
    ensures
      var w, run := WalkTo(g, us, |us|), Run(t[i].callback, Bindings(SegsOf(t, i), us, |us|));
      TailWritten(g, w, t[i].key.verb) == run && TailIntended(g, w, t[i].key.verb) == run
  {
    var segs := SegsOf(t, i);
    var a := Full(segs);
    MatchesAt(segs, |us|, us);
    HeadOf(t, g, loc, a, i);
    var p := WalkFinds(g, loc, us, |us|);
    assert MatchesTo(a, us, |us|);
    var w := WalkTo(g, us, |us|);
    GroupHit(t, g, loc[a], i, w.params, true);
    GroupHit(t, g, loc[a], i, w.params, false);
  }

  /** If no route answers, the intended tail runs none. */
  lemma MissIntended(t: Table, g: Graph, loc: Places, us: seq<string>, verb: nat)
    requires Routed(t, g, loc) && verb < 256
    requires forall i :: 0 <= i < |t| ==> !Answers(t, us, verb, i)
    ensures TailIntended(g, WalkTo(g, us, |us|), verb) == NotFound
  {
    var w := WalkTo(g, us, |us|);
    var p := WalkFinds(g, loc, us, |us|);
    if TailIntended(g, w, verb) != NotFound {
      assert LinkOk(g, loc[p]) && Anchor(loc, p) == p;
      var h: int := g.statics[loc[p]].endpointPos;
      assert FirstOf(t, |t|, p, h);
      var i := GroupRunIntended(t, g, loc[p], verb, w.params);
      MatchLength(SegsOf(t, h), |SegsOf(t, h)|, us, |us|);
      MatchesAt(SegsOf(t, h), |us|, us);
      assert SegsOf(t, i) == SegsOf(t, h);
      assert Answers(t, us, verb, i);
      assert false;
    }
  }

  lemma AnswersUnique(t: Table, us: seq<string>, verb: nat, i: nat, k: nat)
    requires WellFormed(t) && Answers(t, us, verb, i) && Answers(t, us, verb, k)
    ensures i == k
  {
    var loc := RoutedTable(t);
    var g := Compile(EMPTY_GRAPH, t);
    var p := WalkFinds(g, loc, us, |us|);
    MatchesAt(SegsOf(t, i), |us|, us);
    MatchesAt(SegsOf(t, k), |us|, us);
    HeadOf(t, g, loc, Full(SegsOf(t, i)), i);
    HeadOf(t, g, loc, Full(SegsOf(t, k)), k);
    assert MatchesTo(Full(SegsOf(t, i)), us, |us|) && MatchesTo(Full(SegsOf(t, k)), us, |us|);
    SameKeySameRoute(t, i, k);
  }

  lemma SlashUnanswered(t: Table, verb: nat, i: nat)
    requires WellFormed(t)
    ensures !Answers(t, [""], verb, i)
  {
    if i < |t| {
      NoEmptyRoute(t, i);
      assert |SegsOf(t, i)| == 1 ==> SegsOf(t, i) == [SegsOf(t, i)[0]];
    }
  }

  /** Completeness of the router as written: a request for a registered path and method
      runs exactly that route's callback, with the parameters in path order. */
  lemma WrittenCompleteness(t: Table, uri: string, i: nat)
    requires WellFormed(t) && uri != "" && i < |t|
    requires Answers(t, UriSegs(uri), t[i].key.verb, i)
    ensures Room(EMPTY_GRAPH, t) && Ready(Compile(EMPTY_GRAPH, t))
    ensures HandleWritten(Compile(EMPTY_GRAPH, t), uri, t[i].key.verb) ==
              Run(t[i].callback, Bindings(SegsOf(t, i), UriSegs(uri), |UriSegs(uri)|))
  {
    var loc := RoutedTable(t);
    if uri == "/" {
      SlashUnanswered(t, t[i].key.verb, i);
    }
    Hit(t, Compile(EMPTY_GRAPH, t), loc, UriSegs(uri), i);
  }

  /** The intended router refines the table: it runs a callback just for the one route that
      answers, and says not found when there is none. */
  lemma IntendedExact(t: Table, uri: string, verb: nat)
    requires WellFormed(t) && uri != "" && verb < 256
    ensures Room(EMPTY_GRAPH, t) && Ready(Compile(EMPTY_GRAPH, t))
    ensures forall i :: 0 <= i < |t| && Answers(t, UriSegs(uri), verb, i) ==>
              HandleIntended(Compile(EMPTY_GRAPH, t), uri, verb) ==
                Run(t[i].callback, Bindings(SegsOf(t, i), UriSegs(uri), |UriSegs(uri)|))
    ensures HandleIntended(Compile(EMPTY_GRAPH, t), uri, verb) != NotFound ==>
              exists i :: 0 <= i < |t| && Answers(t, UriSegs(uri), verb, i)
  {
    var loc := RoutedTable(t);
    var g := Compile(EMPTY_GRAPH, t);
    forall i | 0 <= i < |t| && Answers(t, UriSegs(uri), verb, i)
      ensures HandleIntended(g, uri, verb) == Run(t[i].callback, Bindings(SegsOf(t, i), UriSegs(uri), |UriSegs(uri)|))
    {
      if uri == "/" {
        SlashUnanswered(t, verb, i);
      }
      Hit(t, g, loc, UriSegs(uri), i);
    }
    if forall i :: 0 <= i < |t| ==> !Answers(t, UriSegs(uri), verb, i) {
      if uri == "/" {
        RootHasNoEndpoint(t, g, loc);
      } else {
        MissIntended(t, g, loc, UriSegs(uri), verb);
      }
    }
  }

  /** A URI that stops inside a route stops on the node of that prefix, and the node that
      answers in the written tail is the one whose first route is `h`. */
  lemma AnchoredNode(t: Table, g: Graph, loc: Places, us: seq<string>, r: nat, h: nat, p: Prefix)
    requires Routed(t, g, loc) && Anchored(t, us, r, h)
    requires WalkSpec(g, loc, us, |us|, WalkTo(g, us, |us|), p)
    ensures p in loc && IsTagged(loc[p]) == ParamAfter(SegsOf(t, r), |us|)
    ensures
      var w := WalkTo(g, us, |us|);
      w.Found? && g.statics[w.sroute].endpointPos == h
  {
    var segs := SegsOf(t, r);
    var a := AnchorLen(segs, |us|);
    assert IsPrefix(t, r, |us|, At(segs, |us|));
    MatchesAt(segs, |us|, us);
    assert p == At(segs, |us|);
    AnchorAt(t, loc, r, |us|);
    SamePrefix(SegsOf(t, h), a, segs, a);
    assert SegsOf(t, h)[..a] == SegsOf(t, h);
    HeadOf(t, g, loc, At(segs, a), h);
    var e := g.statics[loc[At(segs, a)]].endpointPos;
    if e < h {
      HeadlessInside(t, e, h, h);
    }
  }

  lemma {:induction false} AnchorStatic(loc: Places, p: Prefix)
    requires Root in loc && loc[Root] == 0 && Anchor(loc, p) in loc
    ensures !IsTagged(loc[Anchor(loc, p)])
  {
    if p.Snoc? && p in loc && IsTagged(loc[p]) {
      AnchorStatic(loc, p.parent);
    }
  }

  /** A walk that is not lost stands inside some route. */
  lemma StoppedIn(t: Table, g: Graph, loc: Places, us: seq<string>, w: Walk, p: Prefix) returns (r: nat)
    requires Routed(t, g, loc) && us != [] && AtPrefix(g, loc, us, |us|, w, p)
    ensures r < |t| && CoversTo(SegsOf(t, r), us, |us|)
    ensures
      var a := At(SegsOf(t, r), AnchorLen(SegsOf(t, r), |us|));
      a in loc && !IsTagged(loc[a]) && w.sroute == loc[a] && LinkOk(g, loc[a])
  {
    assert IsKnown(t, p);
    var j: nat;
    r, j :| IsPrefix(t, r, j, p);
    MatchLength(SegsOf(t, r), j, us, |us|);
    MatchesAt(SegsOf(t, r), |us|, us);
    AnchorAt(t, loc, r, |us|);
    AnchorStatic(loc, p);
  }

  lemma AnchoredBy(t: Table, us: seq<string>, r: nat, h: int)
    requires WellFormed(t) && r < |t| && CoversTo(SegsOf(t, r), us, |us|)
    requires FirstOf(t, |t|, At(SegsOf(t, r), AnchorLen(SegsOf(t, r), |us|)), h) && h >= 0
    ensures Anchored(t, us, r, h)
  {
    var segs := SegsOf(t, r);
    var n := AnchorLen(segs, |us|);
    FirstIsHead(t, At(segs, n), h, h);
    SamePrefix(SegsOf(t, h), |SegsOf(t, h)|, segs, n);
    assert SegsOf(t, h)[..n] == SegsOf(t, h);
  }

  lemma SlashAnchorsNothing(t: Table)
    requires WellFormed(t)
    ensures forall r: nat, h: nat :: !Anchored(t, [""], r, h)
  {
    forall r: nat, h: nat ensures !Anchored(t, [""], r, h) {
      if r < |t| && h < |t| && CoversTo(SegsOf(t, r), [""], 1) {
        NoEmptyRoute(t, r);
        NoEmptyRoute(t, h);
        assert SegMatches(SegsOf(t, r)[0], [""][0]);
        assert SegsOf(t, r)[..1] == [""];
      }
    }
  }

  /** Where the written tail runs a callback, some group further up provides it. */
  lemma RunAnchored(t: Table, g: Graph, loc: Places, us: seq<string>, verb: nat) returns (r: nat, h: nat)
    requires Routed(t, g, loc) && us != [] && verb < 256
    requires TailWritten(g, WalkTo(g, us, |us|), verb) != NotFound
    ensures Anchored(t, us, r, h) && (t[h].key.verb == verb || Stray(t, h, verb))
  {
    var w := WalkTo(g, us, |us|);
    var p := WalkFinds(g, loc, us, |us|);
    r := StoppedIn(t, g, loc, us, w, p);
    assert FirstOf(t, |t|, At(SegsOf(t, r), AnchorLen(SegsOf(t, r), |us|)), g.statics[w.sroute].endpointPos);
    h := g.statics[w.sroute].endpointPos;
    AnchoredBy(t, us, r, h);
    GroupMissWritten(t, g, w.sroute, verb, w.params);
  }

  lemma AnchoredAnswers(t: Table, us: seq<string>, verb: nat, r: nat, h: nat)
    requires Anchored(t, us, r, h) && !ParamAfter(SegsOf(t, r), |us|) && t[h].key.verb == verb
    ensures Answers(t, us, verb, h)
  {
  }

  /** Where the written tail runs a callback and no route answers, the request overruns. */
  lemma StrayAnchored(t: Table, g: Graph, loc: Places, us: seq<string>, verb: nat)
    requires Routed(t, g, loc) && us != [] && verb < 256
    requires forall i :: 0 <= i < |t| ==> !Answers(t, us, verb, i)
    requires TailWritten(g, WalkTo(g, us, |us|), verb) != NotFound
    ensures Overruns(t, us, verb)
  {
    var r, h := RunAnchored(t, g, loc, us, verb);
    if !ParamAfter(SegsOf(t, r), |us|) && t[h].key.verb == verb {
      AnchoredAnswers(t, us, verb, r, h);
    }
  }

  lemma GroupPick(t: Table, g: Graph, s: nat, verb: nat, params: seq<Param>, k: nat)
    requires Plain(t) && Listed(t, g) && Ready(g) && s < |g.statics| && verb < 256
    requires 0 <= g.statics[s].endpointPos < |t| && Picks(t, g.statics[s].endpointPos, verb, k)
    ensures Group(g, s, verb, params, true) == Run(t[k].callback, params)
  {
    var h: nat := g.statics[s].endpointPos;
    WordFacts(t, h, verb);
    WordFacts(t, k, verb);
    if h < k {
      assert g.endpoints[k] == verb;
      var i := ScanWritten(g.endpoints, h + 1, verb).value;
      WordFacts(t, i, verb);
      assert i <= k;
    }
  }

  /** What the router as written runs, whether or not it should: the route picked from the
      group where the walk came to rest, with the parameters bound on the way. */
  lemma WrittenAnswer(t: Table, uri: string, verb: nat, r: nat, h: nat, k: nat)
    requires WellFormed(t) && uri != "" && uri != "/" && verb < 256
    requires Anchored(t, UriSegs(uri), r, h) && Picks(t, h, verb, k)
    ensures Room(EMPTY_GRAPH, t) && Ready(Compile(EMPTY_GRAPH, t))
    ensures HandleWritten(Compile(EMPTY_GRAPH, t), uri, verb) ==
              Run(t[k].callback, Bindings(SegsOf(t, r), UriSegs(uri), |UriSegs(uri)|))
  {
    var loc := RoutedTable(t);
    var g, us := Compile(EMPTY_GRAPH, t), UriSegs(uri);
    var p := WalkFinds(g, loc, us, |us|);
    AnchoredNode(t, g, loc, us, r, h, p);
    MatchesAt(SegsOf(t, r), |us|, us);
    assert IsPrefix(t, r, |us|, At(SegsOf(t, r), |us|));
    var w := WalkTo(g, us, |us|);
    GroupPick(t, g, w.sroute, verb, w.params, k);
  }

  /** When the router as written says not found. */
  lemma WrittenNotFound(t: Table, uri: string, verb: nat)
    requires WellFormed(t) && uri != "" && verb < 256
    ensures Room(EMPTY_GRAPH, t) && Ready(Compile(EMPTY_GRAPH, t))
    ensures HandleWritten(Compile(EMPTY_GRAPH, t), uri, verb) == NotFound <==>
              forall r: nat, h: nat :: Anchored(t, UriSegs(uri), r, h) ==>
                t[h].key.verb != verb && !Stray(t, h, verb)
  {
    var loc := RoutedTable(t);
    var g, us := Compile(EMPTY_GRAPH, t), UriSegs(uri);
    if uri == "/" {
      SlashAnchorsNothing(t);
      RootHasNoEndpoint(t, g, loc);
    } else if HandleWritten(g, uri, verb) == NotFound {
      var p := WalkFinds(g, loc, us, |us|);
      var w := WalkTo(g, us, |us|);
      forall r: nat, h: nat | Anchored(t, us, r, h) ensures t[h].key.verb != verb && !Stray(t, h, verb) {
        AnchoredNode(t, g, loc, us, r, h, p);
        GroupMissWritten(t, g, w.sroute, verb, w.params);
      }
    } else {
      var r, h := RunAnchored(t, g, loc, us, verb);
    }
  }

  lemma OverrunsDiffer(t: Table, g: Graph, loc: Places, us: seq<string>, verb: nat)
    requires Routed(t, g, loc) && verb < 256 && Overruns(t, us, verb)
    ensures TailWritten(g, WalkTo(g, us, |us|), verb) != NotFound
    ensures TailIntended(g, WalkTo(g, us, |us|), verb) == NotFound
  {
    var w := WalkTo(g, us, |us|);
    var r: nat, h: nat :| Anchored(t, us, r, h) &&
      if ParamAfter(SegsOf(t, r), |us|) then t[h].key.verb == verb || Stray(t, h, verb)
      else Stray(t, h, verb) && forall i :: 0 <= i < |t| ==> !Answers(t, us, verb, i);
    var p := WalkFinds(g, loc, us, |us|);
    AnchoredNode(t, g, loc, us, r, h, p);
    GroupMissWritten(t, g, w.sroute, verb, w.params);
    if !ParamAfter(SegsOf(t, r), |us|) {
      MissIntended(t, g, loc, us, verb);
    }
  }

  /** The router as written and the intended one differ on exactly the requests that
      overrun; there the written one runs a callback and the intended one finds none. */
  lemma AgreeUnlessOverrun(t: Table, uri: string, verb: nat)
    requires WellFormed(t) && uri != "" && verb < 256
    ensures Room(EMPTY_GRAPH, t) && Ready(Compile(EMPTY_GRAPH, t))
    ensures
      HandleWritten(Compile(EMPTY_GRAPH, t), uri, verb) == HandleIntended(Compile(EMPTY_GRAPH, t), uri, verb)
      <==> !Overruns(t, UriSegs(uri), verb)
  {
    var loc := RoutedTable(t);
    var g, us := Compile(EMPTY_GRAPH, t), UriSegs(uri);
    if uri == "/" {
      SlashAnchorsNothing(t);
    } else if Overruns(t, us, verb) {
      OverrunsDiffer(t, g, loc, us, verb);
    } else if i: nat :| i < |t| && Answers(t, us, verb, i) {
      Hit(t, g, loc, us, i);
    } else {
      MissIntended(t, g, loc, us, verb);
      if TailWritten(g, WalkTo(g, us, |us|), verb) != NotFound {
        StrayAnchored(t, g, loc, us, verb);
      }
    }
  }

  /** The compiled groups: as many words as callbacks, and from a tagged word on, the words up
      to the next tagged one are exactly the routes of one path. */
  lemma GroupRuns(t: Table, h: nat, k: nat)
    requires WellFormed(t) && h <= k < |t|
    ensures Room(EMPTY_GRAPH, t)
    ensures
      var g := Compile(EMPTY_GRAPH, t);
      && |g.endpoints| == |g.callbacks| == |t|
      && GetVerb(g.endpoints[k]) == t[k].key.verb && g.callbacks[k] == t[k].callback
      && (IsTagged(g.endpoints[h]) ==>
            (t[k].key.path == t[h].key.path <==> forall i :: h < i <= k ==> !IsTagged(g.endpoints[i])))
  {
    var loc := RoutedTable(t);
    var g := Compile(EMPTY_GRAPH, t);
    forall i | 0 <= i < |t| ensures IsTagged(g.endpoints[i]) <==> Head(t, i) {
      WordFacts(t, i, 0);
    }
    WordFacts(t, k, 0);
    if t[k].key.path == t[h].key.path {
      forall i | h < i <= k ensures !Head(t, i) {
        HeadlessInside(t, h, i, k);
      }
    } else if forall i :: h < i <= k ==> !Head(t, i) {
      NoHeadBetween(t, h, k);
    }
  }
}
