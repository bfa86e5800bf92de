/** The tag filter of the test harness: bracketed, comma-separated lists. */
module TestTags {
  import opened Text

  /** The list has a tag from `a` to `b`: a whole stretch between commas or brackets. */
  predicate TagAt(s: string, a: nat, b: nat) {
    && 1 <= a <= b < |s|
    && (a == 1 || s[a - 1] == ',')
    && (b == |s| - 1 || s[b] == ',')
    && forall k :: a <= k < b ==> s[k] != ','
  }

  ghost predicate HasTag(s: string, tag: string) {
    exists a: nat, b: nat :: TagAt(s, a, b) && s[a..b] == tag
  }

  /** The positions where tags end: the commas from `i` on, then the closing bracket. */
  function Ends(s: string, i: nat): (es: seq<nat>)
    requires 1 <= i < |s|
    ensures |es| > 0
    decreases |s| - i
  {
    if i == |s| - 1 then [i] else (if s[i] == ',' then [i] else []) + Ends(s, i + 1)
  }

  /** Where the tag that ends at position `n` of the list starts. */
  function StartOf(es: seq<nat>, n: nat): nat
    requires n <= |es|
  {
    if n == 0 then 1 else es[n - 1] + 1
  }

  /** Every end found from `i` on, in order, with no comma between one and the next. */
  ghost predicate EndsFrom(s: string, i: nat, es: seq<nat>)
    requires 1 <= i < |s|
  {
    && |es| > 0 && es[|es| - 1] == |s| - 1
    && (forall n :: 0 <= n < |es| ==> i <= es[n] < |s| && (es[n] < |s| - 1 ==> s[es[n]] == ','))
    && (forall n :: 0 < n < |es| ==> es[n - 1] < es[n])
    && (forall k: nat :: i <= k < |s| - 1 && s[k] == ',' ==> k in es)
  }

  lemma EndsPrepend(s: string, i: nat, rest: seq<nat>)
    requires 1 <= i < |s| - 1 && EndsFrom(s, i + 1, rest)
    ensures EndsFrom(s, i, if s[i] == ',' then [i] + rest else rest)
  {
    if s[i] == ',' {
      var es := [i] + rest;
      assert forall n :: 0 < n < |es| ==> es[n] == rest[n - 1];
    }
  }

  lemma {:induction false} EndsAreEnds(s: string, i: nat)
    requires 1 <= i < |s|
    ensures EndsFrom(s, i, Ends(s, i))
    decreases |s| - i
  {
    if i < |s| - 1 {
      EndsAreEnds(s, i + 1);
      EndsPrepend(s, i, Ends(s, i + 1));
      assert [] + Ends(s, i + 1) == Ends(s, i + 1);
    }
  }

  lemma {:induction false} Ascending(es: seq<nat>, m: nat, n: nat)
    requires m < n < |es| && forall k :: 0 < k < |es| ==> es[k - 1] < es[k]
    ensures es[m] < es[n]
  {
    if m < n - 1 {
      Ascending(es, m, n - 1);
    }
  }

  lemma EndIsTag(s: string, es: seq<nat>, n: nat)
    requires |s| >= 2 && EndsFrom(s, 1, es) && n < |es|
    ensures TagAt(s, StartOf(es, n), es[n])
  {
    forall k: nat | StartOf(es, n) <= k < es[n] ensures s[k] != ',' {
      if k in es {
        var m :| 0 <= m < |es| && es[m] == k;
        if m < n - 1 {
          Ascending(es, m, n - 1);
        } else if n < m {
          Ascending(es, n, m);
        }
      } else if n < |es| - 1 {
        Ascending(es, n, |es| - 1);
      }
    }
    if n > 0 {
      Ascending(es, n - 1, |es| - 1);
    }
  }

  lemma TagHasEnd(s: string, es: seq<nat>, a: nat, b: nat) returns (n: nat)
    requires |s| >= 2 && EndsFrom(s, 1, es) && TagAt(s, a, b)
    ensures n < |es| && StartOf(es, n) == a && es[n] == b
  {
    assert b in es by {
      assert b == |s| - 1 ==> es[|es| - 1] == b;
    }
    n :| 0 <= n < |es| && es[n] == b;
    EndIsTag(s, es, n);
    OneStart(s, a, StartOf(es, n), b);
  }

  lemma OneStart(s: string, a: nat, c: nat, b: nat)
    requires TagAt(s, a, b) && TagAt(s, c, b)
    ensures a == c
  {
    assert s[a - 1] == ',' || a == 1;
    assert s[c - 1] == ',' || c == 1;
  }

  function TagNo(s: string, n: nat): string
    requires |s| >= 2 && n < |Ends(s, 1)|
  {
    var es := Ends(s, 1);
    EndsAreEnds(s, 1);
    EndIsTag(s, es, n);
    s[StartOf(es, n)..es[n]]
  }

  /** What stands between one end and the next is a tag. */
  lemma TagNoIsTag(s: string, n: nat)
    requires |s| >= 2 && n < |Ends(s, 1)|
    ensures
      var from, to := StartOf(Ends(s, 1), n), Ends(s, 1)[n];
      1 <= from <= to < |s| && s[from..to] == TagNo(s, n)
    ensures HasTag(s, TagNo(s, n))
  {
    EndsAreEnds(s, 1);
    EndIsTag(s, Ends(s, 1), n);
  }

  lemma TagsAreNumbered(s: string, tag: string) returns (n: nat)
    requires |s| >= 2 && HasTag(s, tag)
    ensures n < |Ends(s, 1)| && TagNo(s, n) == tag
  {
    EndsAreEnds(s, 1);
    var a: nat, b: nat :| TagAt(s, a, b) && s[a..b] == tag;
    n := TagHasEnd(s, Ends(s, 1), a, b);
  }

  ghost predicate AllTags(user: string, tags: string) {
    forall tag :: HasTag(user, tag) ==> HasTag(tags, tag)
  }

  lemma AllNumbered(user: string, tags: string)
    requires |user| >= 2
    requires forall m: nat :: m < |Ends(user, 1)| ==> HasTag(tags, TagNo(user, m))
    ensures AllTags(user, tags)
  {
    forall tag | HasTag(user, tag) ensures HasTag(tags, tag) {
      var n := TagsAreNumbered(user, tag);
    }
  }

  lemma EndsNext(s: string, es: seq<nat>, i: nat)
    requires 1 <= i < |s| - 1
    ensures es + Ends(s, i) == (if s[i] == ',' then es + [i] else es) + Ends(s, i + 1)
  {
    assert es + [i] + Ends(s, i + 1) == es + ([i] + Ends(s, i + 1));
    assert [] + Ends(s, i + 1) == Ends(s, i + 1);
  }

  /** The positions where the tags of a list end. */
  method IndexTags(tags: string) returns (indexes: seq<nat>)
    requires |tags| >= 2
    ensures indexes == Ends(tags, 1)
  {
    indexes := [];
    var length := |tags| - 1;
    var i := 1;
    while i < length
      invariant 1 <= i <= length
      invariant indexes + Ends(tags, i) == Ends(tags, 1)
    {
      hide Ends;
      EndsNext(tags, indexes, i);
      if tags[i] == ',' {
        indexes := indexes + [i];
      }
      i := i + 1;
    }
    indexes := indexes + [length];
  }

  /** Sizes are 64 bits wide, and wrap around. */
  const WIDTH := 0x1_0000_0000_0000_0000

  /** Recorded positions are 32 bits wide. */
  const LONGEST := 0x1_0000_0000

  /** The inner loop of `test_tags`: is there a tag of the same size and characters as the
      `size` characters of `user` from `from` on? A size that wrapped around fits no tag. */
  method FindTag(tags: string, indexes: seq<nat>, user: string, from: nat, size: nat) returns (found: bool)
    requires |tags| >= 2 && indexes == Ends(tags, 1)
    requires from + size <= |user| || size >= |tags|
    ensures found <==> from + size <= |user| && HasTag(tags, user[from..from + size])
  {
    found := false;
    var start, m := 1, 0;
    while m < |indexes|
      invariant m <= |indexes| && start == StartOf(indexes, m) && !found
      invariant from + size <= |user| ==> forall k: nat :: k < m ==> TagNo(tags, k) != user[from..from + size]
    {
      var end := indexes[m];
      TagNoIsTag(tags, m);
      if size == end - start && tags[start..start + size] == user[from..from + size] {
        return true;
      }
      start := end + 1;
      m := m + 1;
    }
    if from + size <= |user| && HasTag(tags, user[from..from + size]) {
      var n := TagsAreNumbered(tags, user[from..from + size]);
    }
  }

  /** The stretch up to recorded position `n` is there, and is a tag of the test case. */
  ghost predicate PassesAt(user: string, indexes: seq<nat>, tags: string, n: nat)
    requires n < |indexes|
  {
    StartOf(indexes, n) <= indexes[n] <= |user| && HasTag(tags, user[StartOf(indexes, n)..indexes[n]])
  }

  /** What `test_tags` tests. */
  ghost predicate Passes(user: string, indexes: seq<nat>, tags: string) {
    forall n: nat :: n < |indexes| ==> PassesAt(user, indexes, tags, n)
  }

  /** With the positions of one list, that is what is asked for. */
  lemma PassesIff(user: string, tags: string)
    requires |user| >= 2
    ensures Passes(user, Ends(user, 1), tags) <==> AllTags(user, tags)
  {
    var es := Ends(user, 1);
    forall n: nat | n < |es|
      ensures PassesAt(user, es, tags, n) <==> HasTag(tags, TagNo(user, n))
      ensures HasTag(user, TagNo(user, n))
    {
      TagNoIsTag(user, n);
    }
    if Passes(user, es, tags) {
      forall m: nat | m < |es| ensures HasTag(tags, TagNo(user, m)) {
        assert PassesAt(user, es, tags, m);
      }
      AllNumbered(user, tags);
    }
  }

  /** After the same list has been set twice, no test case passes. */
  lemma SetTwiceNeverPasses(user: string, tags: string)
    requires |user| >= 2
    ensures !Passes(user, Ends(user, 1) + Ends(user, 1), tags)
  {
    EndsAreEnds(user, 1);
    var es := Ends(user, 1);
    assert (es + es)[|es|] == es[0] && StartOf(es + es, |es|) == |user|;
    assert !PassesAt(user, es + es, tags, |es|);
  }

  /** The test case "[a]" has every tag that is asked for, and does not pass. */
  lemma SecondSetFails()
    ensures Ends("[a]", 1) == [2]
    ensures AllTags("[a]", "[a]") && !Passes("[a]", [2] + [2], "[a]")
  {
    assert "[a]"[1] == 'a';
    assert Ends("[a]", 2) == [2];
    SetTwiceNeverPasses("[a]", "[a]");
  }

  class Data {
    var tags: Option<string>
    var indexes: seq<nat>
    var memoIndexes: seq<nat>

    /** The recorded positions are those of the list that was set. */
    ghost predicate Valid()
      reads this
    {
      tags.Some? ==> |tags.value| >= 2 && indexes == Ends(tags.value, 1)
    }

    constructor ()
      ensures Valid() && tags == None && indexes == []
    {
      tags, indexes, memoIndexes := None, [], [];
    }

    /** The positions are added to those of an earlier call. */
    method SetTags(tags: string)
      requires |tags| >= 2
      modifies this
      ensures this.tags == Some(tags) && indexes == old(indexes) + Ends(tags, 1)
      ensures Valid() <==> old(indexes) == []
    {
      this.tags := Some(tags);
      var ends := IndexTags(tags);
      indexes := indexes + ends;
      assert |indexes| == old(|indexes|) + |Ends(tags, 1)|;
    }

    /** No recorded position lies behind the end of the list that was set last. */
    predicate Inside()
      reads this
    {
      tags.Some? ==> |tags.value| >= 2 && forall n :: 0 <= n < |indexes| ==> indexes[n] <= |tags.value|
    }

    /** OK exactly when every stretch that was recorded is a tag of the test case. */
    method TestTags(tags: string) returns (ok: bool)
      requires |tags| >= 2 && Inside() && (this.tags.Some? ==> |this.tags.value| <= LONGEST && |tags| <= LONGEST)
      modifies this`memoIndexes
      ensures ok <==> this.tags == None || Passes(this.tags.value, indexes, tags)
      ensures Valid() && this.tags.Some? ==> (ok <==> AllTags(this.tags.value, tags))
    {
      if this.tags == None {
        return true;
      }
      PassesIff(this.tags.value, tags);
      hide AllTags;
      memoIndexes := IndexTags(tags);
      var userStart, n := 1, 0;
      while n < |indexes|
        invariant n <= |indexes| && userStart == StartOf(indexes, n)
        invariant memoIndexes == Ends(tags, 1)
        invariant forall m: nat :: m < n ==> PassesAt(this.tags.value, indexes, tags, m)
      {
        hide HasTag, Ends;
        var userSize := Wrapped(indexes[n] as int - userStart as int);
        FitsOrWraps(this.tags.value, tags, userStart, indexes[n]);
        var found := FindTag(tags, memoIndexes, this.tags.value, userStart, userSize);
        if !found {
          assert !PassesAt(this.tags.value, indexes, tags, n);
          return false;
        }
        userStart := indexes[n] + 1;
        n := n + 1;
      }
      return true;
    }
  }

  function Wrapped(size: int): (r: nat) {
    size % WIDTH
  }

  /** A difference of positions is a size, or wraps around to one that is too large for any tag. */
  lemma FitsOrWraps(user: string, tags: string, from: nat, to: nat)
    requires from <= |user| + 1 && to <= |user| && |user| <= LONGEST && |tags| <= LONGEST
    ensures from <= to ==> Wrapped(to - from) == to - from
    ensures from > to ==> Wrapped(to - from) >= |tags| && from + Wrapped(to - from) > |user|
  {
  }

  /** For a list that was set once: OK exactly when every tag asked for is one of the case's. */
  method TestTagsOnce(user: string, tags: string) returns (ok: bool)
    requires |user| >= 2 && |tags| >= 2 && |user| <= LONGEST && |tags| <= LONGEST
    ensures ok <==> AllTags(user, tags)
  {
    var data := new Data();
    data.SetTags(user);
    EndsAreEnds(user, 1);
    ok := data.TestTags(tags);
  }
}
