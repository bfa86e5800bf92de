/** The table of registered routes: keys, their order, insertion, and well-formed tables. */
module RouteTable {
  import opened Text

  datatype Key = Key(path: string, verb: int)

  /** A handler: the data pointer and the function it is passed to, as opaque identities. */
  datatype Callback = Callback(data: nat, endpoint: nat)

  datatype Route = Route(key: Key, callback: Callback)

  type Table = seq<Route>

  /** `router_key::operator()`: by path, and by method among equal paths. */
  function KeyCmp(a: Key, b: Key): int {
    var diff := StrCmp(a.path, b.path);
    if diff != 0 then diff else a.verb - b.verb
  }

  predicate KeyLess(a: Key, b: Key) {
    KeyCmp(a, b) < 0
  }

  /** The comparator is a strict total order on keys. */
  lemma KeyOrder(a: Key, b: Key, c: Key)
    ensures KeyCmp(a, b) == 0 <==> a == b
    ensures KeyLess(a, b) <==> KeyCmp(b, a) > 0
    ensures KeyLess(a, b) && KeyLess(b, c) ==> KeyLess(a, c)
    ensures KeyLess(a, b) && KeyLess(b, c) && a.path == c.path ==> b.path == a.path
  {
    StrCmpEqual(a.path, b.path);
    StrCmpEqual(b.path, c.path);
    StrCmpEqual(a.path, c.path);
    StrCmpEqual(b.path, a.path);
    StrCmpOpposite(a.path, b.path);
    StrCmpOpposite(b.path, a.path);
    StrCmpOpposite(a.path, c.path);
    if StrCmp(a.path, b.path) < 0 && StrCmp(b.path, c.path) < 0 {
      StrCmpTransitive(a.path, b.path, c.path);
    }
  }

  /** Iteration order of the route map: strictly ascending keys. */
  ghost predicate Sorted(t: Table) {
    forall i, j {:trigger KeyLess(t[i].key, t[j].key)} :: 0 <= i < j < |t| ==> KeyLess(t[i].key, t[j].key)
  }

  ghost predicate HasKey(t: Table, k: Key) {
    exists i :: 0 <= i < |t| && t[i].key == k
  }

  /** Where `r` goes: after every smaller key. */
  function Slot(t: Table, k: Key): (n: nat)
    ensures n <= |t|
    ensures forall i :: 0 <= i < n ==> KeyLess(t[i].key, k)
    ensures n < |t| ==> !KeyLess(t[n].key, k)
  {
    if t == [] || !KeyLess(t[0].key, k) then 0 else 1 + Slot(t[1..], k)
  }

  function Insert(t: Table, r: Route): Table {
    var n := Slot(t, r.key);
    t[..n] + [r] + t[n..]
  }

  lemma SpliceMultiset<T>(s: seq<T>, n: nat, x: T)
    requires n <= |s|
    ensures multiset(s[..n] + [x] + s[n..]) == multiset(s) + multiset{x}
  {
    assert s == s[..n] + s[n..];
  }

  lemma AfterSlot(t: Table, k: Key, i: nat)
    requires Sorted(t) && !HasKey(t, k)
    requires Slot(t, k) <= i < |t|
    ensures KeyLess(k, t[i].key)
  {
    var n := Slot(t, k);
    KeyOrder(t[n].key, k, k);
    KeyOrder(k, t[n].key, t[i].key);
  }

  /** Inserting a new key keeps the table sorted and adds exactly that route. */
  lemma InsertSorted(t: Table, r: Route)
    requires Sorted(t) && !HasKey(t, r.key)
    ensures Sorted(Insert(t, r))
    ensures multiset(Insert(t, r)) == multiset(t) + multiset{r}
  {
    var n := Slot(t, r.key);
    var u := Insert(t, r);
    SpliceMultiset(t, n, r);
    forall i, j | 0 <= i < j < |u| ensures KeyLess(u[i].key, u[j].key) {
      if j == n {
      } else if i == n {
        AfterSlot(t, r.key, j - 1);
      } else {
        assert u[i] == if i < n then t[i] else t[i - 1];
        assert u[j] == if j < n then t[j] else t[j - 1];
      }
    }
  }

  /** The table once `r` has been handed to the map. What the map does with a key that it has
      is its own choice: it keeps the route it holds, or replaces its callback. */
  function Put(t: Table, r: Route, renew: bool): Table {
    var n := Slot(t, r.key);
    if n == |t| || t[n].key != r.key then Insert(t, r)
    else if renew then t[n := Route(t[n].key, r.callback)]
    else t
  }

  /** The table stays sorted; a key that is there stays where it is, and every other route
      is untouched. */
  lemma PutSorted(t: Table, r: Route, renew: bool)
    requires Sorted(t)
    ensures Sorted(Put(t, r, renew))
    ensures !HasKey(t, r.key) ==> Put(t, r, renew) == Insert(t, r)
    ensures HasKey(t, r.key) ==>
              && |Put(t, r, renew)| == |t|
              && forall i :: 0 <= i < |t| ==>
                   Put(t, r, renew)[i] ==
                     if t[i].key == r.key && renew then Route(r.key, r.callback) else t[i]
  {
    var n := Slot(t, r.key);
    if HasKey(t, r.key) {
      var i :| 0 <= i < |t| && t[i].key == r.key;
      KeyOrder(r.key, r.key, r.key);
      assert n == i;
      forall j | 0 <= j < |t| && j != n ensures t[j].key != r.key {
        KeyOrder(t[j].key, t[n].key, t[j].key);
      }
    } else {
      InsertSorted(t, r);
    }
  }

  lemma LeastFirst(a: Table, b: Table)
    requires Sorted(a) && Sorted(b) && a != [] && b != []
    requires a[0] in b && b[0] in a
    ensures a[0] == b[0]
  {
    var i :| 0 <= i < |a| && a[i] == b[0];
    var j :| 0 <= j < |b| && b[j] == a[0];
    if i > 0 && j > 0 {
      assert KeyLess(a[0].key, a[i].key) && KeyLess(b[0].key, b[j].key);
      KeyOrder(a[0].key, b[0].key, a[0].key);
      assert false;
    }
  }

  lemma DropFirst<T>(s: seq<T>)
    requires s != []
    ensures multiset(s[1..]) == multiset(s) - multiset{s[0]}
  {
    assert s == [s[0]] + s[1..];
  }

  /** A sorted table is determined by the routes in it. */
  lemma {:induction false} SortedUnique(a: Table, b: Table)
    requires Sorted(a) && Sorted(b)
    requires multiset(a) == multiset(b)
    ensures a == b
    decreases |a|
  {
    if a == [] {
      assert |multiset(b)| == 0;
    } else {
      assert |multiset(a)| == |a| && |multiset(b)| == |b|;
      assert a[0] in multiset(b) && b[0] in multiset(a);
      LeastFirst(a, b);
      DropFirst(a);
      DropFirst(b);
      SortedUnique(a[1..], b[1..]);
      assert a == [a[0]] + a[1..] && b == [b[0]] + b[1..];
    }
  }

  ghost predicate DistinctKeys(rs: seq<Route>) {
    forall i, j :: 0 <= i < j < |rs| ==> rs[i].key != rs[j].key
  }

  /** The table after registering `rs` one by one, in that order. */
  function Register(rs: seq<Route>): Table {
    if rs == [] then [] else Insert(Register(rs[..|rs| - 1]), rs[|rs| - 1])
  }

  lemma NoSuchKey(t: Table, rs: seq<Route>, r: Route)
    requires multiset(t) == multiset(rs) && forall i :: 0 <= i < |rs| ==> rs[i].key != r.key
    ensures !HasKey(t, r.key)
  {
    forall i | 0 <= i < |t| ensures t[i].key != r.key {
      assert t[i] in multiset(rs);
    }
  }

  lemma {:induction false} RegisterSorted(rs: seq<Route>)
    requires DistinctKeys(rs)
    ensures Sorted(Register(rs))
    ensures multiset(Register(rs)) == multiset(rs)
  {
    hide Insert;
    if rs != [] {
      var init, r := rs[..|rs| - 1], rs[|rs| - 1];
      RegisterSorted(init);
      assert rs == init + [r];
      NoSuchKey(Register(init), init, r);
      InsertSorted(Register(init), r);
      assert multiset(rs) == multiset(init) + multiset{r};
    }
  }

  lemma NextKeyNew(rs: seq<Route>, n: nat)
    requires DistinctKeys(rs) && n < |rs|
    ensures Sorted(Register(rs[..n])) && !HasKey(Register(rs[..n]), rs[n].key)
    ensures Register(rs[..n + 1]) == Insert(Register(rs[..n]), rs[n])
  {
    hide Insert, Sorted;
    RegisterSorted(rs[..n]);
    assert rs[..n + 1][..n] == rs[..n];
    NoSuchKey(Register(rs[..n]), rs[..n], rs[n]);
  }

  lemma RegisterOnly(rs: seq<Route>, i: nat)
    requires DistinctKeys(rs) && i < |Register(rs)|
    ensures Register(rs)[i] in rs
  {
    RegisterSorted(rs);
    assert Register(rs)[i] in multiset(rs);
  }

  /** The order in which routes are registered does not matter. */
  lemma RegistrationOrderIrrelevant(rs: seq<Route>, qs: seq<Route>)
    requires DistinctKeys(rs) && DistinctKeys(qs)
    requires multiset(rs) == multiset(qs)
    ensures Register(rs) == Register(qs)
  {
    RegisterSorted(rs);
    RegisterSorted(qs);
    SortedUnique(Register(rs), Register(qs));
  }

  // ----- paths and their segments

  /** The stored path without one trailing slash. */
  function Trimmed(path: string): string {
    if path != "" && path[|path| - 1] == '/' then path[..|path| - 1] else path
  }

  /** The segments `finalize` visits. */
  function PathSegs(path: string): (segs: seq<string>)
    ensures |segs| >= 1
  {
    var p := Trimmed(path);
    Split(if p != "" && p[0] == '/' then p[1..] else p)
  }

  /** A segment such as ":id" that binds a parameter. */
  predicate IsParam(seg: string) {
    seg != "" && seg[0] == ':'
  }

  /** Does a parameter follow the first `j` segments? */
  predicate ParamAfter(segs: seq<string>, j: nat) {
    j < |segs| && IsParam(segs[j])
  }

  /** The look-ahead of `finalize`: does a parameter start here? */
  predicate ParamAt(p: string, start: nat) {
    start < |p| && p[start] == ':'
  }

  lemma GoesOnInside(p: string, base: nat, size: nat, s: string, segs: seq<string>, j: nat, start: nat, end: nat)
    requires base <= size <= |p| && s == p[base..size] && j < |segs| && StandsIn(s, segs, j)
    requires start == base + Offset(segs, j) && start <= end <= start + |segs[j]|
    ensures end <= size && (end < size && p[end] != '/' <==> end < start + |segs[j]|)
  {
    hide SlashFree;
    var from := Offset(segs, j);
    if end < size {
      assert p[end] == s[end - base];
    }
    if end < start + |segs[j]| {
      assert s[from..from + |segs[j]|][end - start] == s[end - base];
      SlashFreeAt(segs[j], end - start);
    }
  }

  lemma SlashFreeAt(s: string, k: nat)
    requires SlashFree(s) && k < |s|
    ensures s[k] != '/'
  {
  }

  lemma SubSlice(p: string, base: nat, size: nat, from: nat, to: nat)
    requires base <= size <= |p| && from <= to <= size - base
    ensures p[base..size][from..to] == p[base + from..base + to]
  {
    var a, b := p[base..size][from..to], p[base + from..base + to];
    forall k | 0 <= k < |a| ensures a[k] == b[k] {
      assert a[k] == p[base..size][from + k];
    }
    assert |a| == |b|;
  }

  lemma EndsInside(p: string, base: nat, size: nat, s: string, segs: seq<string>, j: nat, start: nat, end: nat)
    requires base <= size <= |p| && s == p[base..size] && j < |segs|
    requires StandsIn(s, segs, j) && (j + 1 < |segs| ==> StandsIn(s, segs, j + 1))
    requires start == base + Offset(segs, j) && end == start + |segs[j]|
    ensures end <= size && p[start..end] == segs[j]
    ensures end == size <==> j + 1 == |segs|
    ensures size == |p| ==> ParamAfter(segs, j + 1) == ParamAt(p, end + 1)
  {
    hide SlashFree;
    SubSlice(p, base, size, Offset(segs, j), Offset(segs, j) + |segs[j]|);
    if j + 1 < |segs| {
      var next := Offset(segs, j + 1);
      assert base + next == end + 1;
      if segs[j + 1] != "" {
        assert s[next..next + |segs[j + 1]|][0] == s[next] == p[end + 1];
      } else if next < |s| {
        assert s[next] == p[end + 1] == '/';
      }
    }
  }

  /** An in-place loop that cuts `p` into `segs`, and has begun segment `j` at `start`, goes
      on just until the end of that segment. */
  lemma CutGoesOn(p: string, base: nat, size: nat, segs: seq<string>, j: nat, start: nat, end: nat)
    requires base <= size <= |p| && segs == Split(p[base..size]) && j < |segs|
    requires start == base + Offset(segs, j) && start <= end <= start + |segs[j]|
    ensures end <= size && (end < size && p[end] != '/' <==> end < start + |segs[j]|)
  {
    PieceStands(p[base..size], j);
    GoesOnInside(p, base, size, p[base..size], segs, j, start, end);
  }

  /** What the loop has cut then is the segment, and the next character tells whether a
      parameter follows. */
  lemma CutEnds(p: string, base: nat, size: nat, segs: seq<string>, j: nat, start: nat, end: nat)
    requires base <= size <= |p| && segs == Split(p[base..size]) && j < |segs|
    requires start == base + Offset(segs, j) && end == start + |segs[j]|
    ensures end <= size && p[start..end] == segs[j] && end + 1 == base + Offset(segs, j + 1)
    ensures end == size <==> j + 1 == |segs|
    ensures size == |p| ==> ParamAfter(segs, j + 1) == ParamAt(p, end + 1)
  {
    PieceStands(p[base..size], j);
    if j + 1 < |segs| {
      PieceStands(p[base..size], j + 1);
    }
    EndsInside(p, base, size, p[base..size], segs, j, start, end);
  }

  /** The first `j` segments of a path, as the name of a node of the compiled graph. */
  datatype Prefix = Root | Snoc(parent: Prefix, seg: string)

  function At(segs: seq<string>, j: nat): Prefix
    requires j <= |segs|
  {
    if j == 0 then Root else Snoc(At(segs, j - 1), segs[j - 1])
  }

  function Full(segs: seq<string>): Prefix {
    At(segs, |segs|)
  }

  lemma {:induction false} SamePrefix(a: seq<string>, i: nat, b: seq<string>, j: nat)
    requires i <= |a| && j <= |b|
    ensures At(a, i) == At(b, j) <==> i == j && a[..i] == b[..j]
  {
    if i > 0 && j > 0 {
      SamePrefix(a, i - 1, b, j - 1);
      assert a[..i] == a[..i - 1] + [a[i - 1]];
      assert b[..j] == b[..j - 1] + [b[j - 1]];
    }
  }

  // ----- well-formed tables

  /** Paths start with '/', do not end with it, and start with a static segment. */
  predicate GoodPath(path: string) {
    && |path| > 1 && path[0] == '/' && path[|path| - 1] != '/'
    && !ParamAfter(PathSegs(path), 0)
  }

  /** Two paths that share their first `j` segments either both go on with the same
      parameter, or neither goes on with a parameter (it may also end there). */
  predicate Compatible(a: seq<string>, b: seq<string>) {
    forall j :: 0 <= j <= |a| && j <= |b| && At(a, j) == At(b, j) ==>
      && ParamAfter(a, j) == ParamAfter(b, j)
      && (ParamAfter(a, j) ==> a[j] == b[j])
  }

  function SegsOf(t: Table, i: nat): seq<string>
    requires i < |t|
  {
    PathSegs(t[i].key.path)
  }

  function SegCount(t: Table): nat {
    if t == [] then 0 else SegCount(t[..|t| - 1]) + |SegsOf(t, |t| - 1)|
  }

  /** More nodes than this and a node position would read as the unset link. */
  const NODE_LIMIT := 0x7FFF_FFFF

  /** Room for the nodes of `t` beside `used` nodes: at most one of each kind for each
      segment, and one more at the end of a route. */
  predicate Fits(used: nat, t: Table) {
    used + SegCount(t) + |t| < NODE_LIMIT
  }

  ghost predicate WellFormed(t: Table) {
    && Sorted(t)
    && (forall i {:trigger GoodPath(t[i].key.path)} :: 0 <= i < |t| ==> GoodPath(t[i].key.path))
    && (forall i {:trigger t[i].key.verb} :: 0 <= i < |t| ==> 0 <= t[i].key.verb < 256)
    && (forall i, j {:trigger Compatible(SegsOf(t, i), SegsOf(t, j))} :: 0 <= i < |t| && 0 <= j < |t| ==>
          Compatible(SegsOf(t, i), SegsOf(t, j)))
    && Fits(1, t)
  }

  /** A good path is determined by its segments. */
  lemma PathFromSegs(p: string)
    requires GoodPath(p)
    ensures p == "/" + Join(PathSegs(p))
  {
    JoinSplit(p[1..]);
    assert p == "/" + p[1..];
  }

  /** Distinct good paths name distinct nodes. */
  lemma SameNodeSamePath(p: string, q: string)
    requires GoodPath(p) && GoodPath(q)
    ensures Full(PathSegs(p)) == Full(PathSegs(q)) <==> p == q
  {
    var a, b := PathSegs(p), PathSegs(q);
    SamePrefix(a, |a|, b, |b|);
    assert a[..|a|] == a && b[..|b|] == b;
    PathFromSegs(p);
    PathFromSegs(q);
  }

  /** Is route `i` the first of its path? */
  predicate Head(t: Table, i: nat)
    requires i < |t|
  {
    i == 0 || t[i - 1].key.path != t[i].key.path
  }

  /** In a sorted table the routes of one path are adjacent. */
  lemma Adjacent(t: Table, i: nat, j: nat, k: nat)
    requires Sorted(t) && i <= k <= j < |t|
    requires t[i].key.path == t[j].key.path
    ensures t[k].key.path == t[i].key.path
  {
    if i < k < j {
      assert KeyLess(t[i].key, t[k].key) && KeyLess(t[k].key, t[j].key);
      KeyOrder(t[i].key, t[k].key, t[j].key);
    }
  }
}
