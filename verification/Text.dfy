/** Byte strings as the router sees them: splitting a path on '/', and `strcmp`. */
module Text {

  datatype Option<+T> = None | Some(value: T)

  /** The position of the first '/' in `s` from `i` on, or `|s|` when there is none. */
  function SlashFrom(s: string, i: nat): (e: nat)
    requires i <= |s|
    ensures i <= e <= |s|
    ensures forall k :: i <= k < e ==> s[k] != '/'
    ensures e < |s| ==> s[e] == '/'
    decreases |s| - i
  {
    if i == |s| || s[i] == '/' then i else SlashFrom(s, i + 1)
  }

  function FirstSlash(s: string): (e: nat)
    ensures e <= |s|
    ensures forall k :: 0 <= k < e ==> s[k] != '/'
    ensures e < |s| ==> s[e] == '/'
  {
    SlashFrom(s, 0)
  }

  /** The pieces of `s` between slashes, empty pieces included. */
  function Split(s: string): (segs: seq<string>)
    ensures |segs| >= 1
    decreases |s|
  {
    var e := FirstSlash(s);
    if e == |s| then [s] else [s[..e]] + Split(s[e + 1..])
  }

  function Join(segs: seq<string>): string {
    if segs == [] then "" else if |segs| == 1 then segs[0] else segs[0] + "/" + Join(segs[1..])
  }

  predicate SlashFree(s: string) {
    forall k :: 0 <= k < |s| ==> s[k] != '/'
  }

  lemma FirstSlashAt(s: string, e: nat)
    requires e <= |s|
    requires forall k :: 0 <= k < e ==> s[k] != '/'
    requires e < |s| ==> s[e] == '/'
    ensures FirstSlash(s) == e
  {
  }

  /** Splitting loses nothing: joining the pieces gives the string back. */
  lemma {:induction false} JoinSplit(s: string)
    ensures Join(Split(s)) == s
    decreases |s|
  {
    var e := FirstSlash(s);
    if e < |s| {
      JoinSplit(s[e + 1..]);
      assert Split(s)[1..] == Split(s[e + 1..]);
      assert s == s[..e] + "/" + s[e + 1..];
    }
  }

  /** Every non-empty list of slash-free pieces is the split of its join. */
  lemma {:induction false} SplitJoin(segs: seq<string>)
    requires segs != []
    requires forall j :: 0 <= j < |segs| ==> SlashFree(segs[j])
    ensures Split(Join(segs)) == segs
    decreases |segs|
  {
    var s := Join(segs);
    if |segs| == 1 {
      FirstSlashAt(s, |s|);
    } else {
      var e := |segs[0]|;
      assert s == segs[0] + "/" + Join(segs[1..]);
      assert forall k :: 0 <= k < e ==> s[k] == segs[0][k];
      FirstSlashAt(s, e);
      assert s[..e] == segs[0] && s[e + 1..] == Join(segs[1..]);
      SplitJoin(segs[1..]);
    }
  }

  /** Where piece `j` starts in the joined string. */
  function Offset(segs: seq<string>, j: nat): nat
    requires j <= |segs|
  {
    if j == 0 then 0 else Offset(segs, j - 1) + |segs[j - 1]| + 1
  }

  lemma OffsetZero(segs: seq<string>)
    ensures Offset(segs, 0) == 0
  {
  }

  lemma {:induction false} OffsetTail(segs: seq<string>, j: nat)
    requires 0 < j <= |segs|
    ensures Offset(segs, j) == |segs[0]| + 1 + Offset(segs[1..], j - 1)
  {
    if j > 1 {
      OffsetTail(segs, j - 1);
    }
  }

  /** Piece `j` stands in `s` at its offset, and a slash or the end of `s` follows it. */
  predicate StandsIn(s: string, segs: seq<string>, j: nat)
    requires j < |segs|
  {
    var from, to := Offset(segs, j), Offset(segs, j) + |segs[j]|;
    && to <= |s| && s[from..to] == segs[j] && SlashFree(segs[j])
    && if j + 1 < |segs| then to < |s| && s[to] == '/' else to == |s|
  }

  lemma StandsLater(head: string, rest: string, tail: seq<string>, j: nat)
    requires j < |tail| && StandsIn(rest, tail, j)
    ensures StandsIn(head + "/" + rest, [head] + tail, j + 1)
  {
    var s, segs := head + "/" + rest, [head] + tail;
    OffsetTail(segs, j + 1);
    assert segs[1..] == tail;
    var from, to := Offset(tail, j), Offset(tail, j) + |tail[j]|;
    var d := |head| + 1;
    assert s[d..] == rest;
    assert s[d..][from..to] == s[d + from..d + to];
  }

  lemma StandsFirst(s: string, e: nat, tail: seq<string>)
    requires e <= |s| && SlashFree(s[..e])
    requires if tail == [] then e == |s| else e < |s| && s[e] == '/'
    ensures StandsIn(s, [s[..e]] + tail, 0)
  {
    assert s[0..e] == s[..e];
  }

  lemma PieceStandsNext(s: string, j: nat)
    requires FirstSlash(s) < |s| && j < |Split(s[FirstSlash(s) + 1..])|
    requires StandsIn(s[FirstSlash(s) + 1..], Split(s[FirstSlash(s) + 1..]), j)
    ensures StandsIn(s, Split(s), j + 1)
  {
    hide StandsIn;
    var head, rest := s[..FirstSlash(s)], s[FirstSlash(s) + 1..];
    assert s == head + "/" + rest;
    StandsLater(head, rest, Split(rest), j);
    assert Split(s) == [head] + Split(rest);
  }

  lemma NoSlashBefore(s: string)
    ensures SlashFree(s[..FirstSlash(s)])
  {
  }

  lemma {:induction false} PieceStands(s: string, j: nat)
    requires j < |Split(s)|
    ensures StandsIn(s, Split(s), j)
    decreases |s|
  {
    hide StandsIn, FirstSlash, SlashFree;
    var e := FirstSlash(s);
    NoSlashBefore(s);
    if e == |s| {
      assert s[..e] == s && [s] + [] == [s];
      StandsFirst(s, e, []);
    } else if j == 0 {
      StandsFirst(s, e, Split(s[e + 1..]));
    } else {
      PieceStands(s[e + 1..], j - 1);
      PieceStandsNext(s, j - 1);
    }
  }

  /** The sign of C's `strcmp`: the first differing byte decides, and a proper prefix comes first. */
  function StrCmp(a: string, b: string): (r: int) {
    if a == "" then (if b == "" then 0 else -1)
    else if b == "" then 1
    else if a[0] != b[0] then (if a[0] < b[0] then -1 else 1)
    else StrCmp(a[1..], b[1..])
  }

  lemma {:induction false} StrCmpEqual(a: string, b: string)
    ensures StrCmp(a, b) == 0 <==> a == b
  {
    if a != "" && b != "" && a[0] == b[0] {
      StrCmpEqual(a[1..], b[1..]);
      assert a == [a[0]] + a[1..] && b == [b[0]] + b[1..];
    }
  }

  lemma {:induction false} StrCmpOpposite(a: string, b: string)
    ensures StrCmp(a, b) < 0 <==> StrCmp(b, a) > 0
  {
    if a != "" && b != "" && a[0] == b[0] {
      StrCmpOpposite(a[1..], b[1..]);
    }
  }

  lemma {:induction false} StrCmpTransitive(a: string, b: string, c: string)
    requires StrCmp(a, b) < 0 && StrCmp(b, c) < 0
    ensures StrCmp(a, c) < 0
  {
    if a != "" && b != "" && c != "" && a[0] == b[0] == c[0] {
      StrCmpTransitive(a[1..], b[1..], c[1..]);
    }
  }
}
