/** The session cookie: what login writes, and how the scanning loop of logout and of the
    user lookup reads it back. */
module Cookies {
  import opened Text
  import opened Bytes
  import opened Uuid
  import opened RequestAssembly

  const COOKIE_NAME := "rp-session="

  /** The value of the Set-Cookie header that `post_login` writes. */
  function SetCookie(sid: string): string {
    COOKIE_NAME + sid + ";"
  }

  predicate OccursAt(v: string, p: nat) {
    p + |COOKIE_NAME| <= |v| && v[p..p + |COOKIE_NAME|] == COOKIE_NAME
  }

  /** The value of `k` after the loop body has seen `v[..j]`, if it has not broken off. */
  function Matched(v: string, j: nat): (k: nat)
    requires j <= |v|
    ensures k <= j && k <= |COOKIE_NAME|
  {
    if j == 0 then 0
    else
      var k := Matched(v, j - 1);
      if k == |COOKIE_NAME| then k
      else if v[j - 1] == COOKIE_NAME[k] then k + 1 else 0
  }

  /** The scanning loop over one header value, as written. Whatever the position of the
      match, the id is read from offset `k` of the value. */
  method Scan(v: string) returns (sid: string)
    ensures sid == ReadId(v)
  {
    var k, j := 0, 0;
    sid := "";
    while j < |v|
      invariant j <= |v| && k == Matched(v, j) && k < |COOKIE_NAME|
      invariant sid == ""
      invariant forall i :: 0 <= i <= j ==> Matched(v, i) < |COOKIE_NAME|
    {
      if v[j] != COOKIE_NAME[k] {
        k := 0;
        j := j + 1;
        continue;
      }
      k := k + 1;
      if k == |COOKIE_NAME| {
        MatchedStays(v, j + 1, |v|);
        sid := UuidText(v[k..]);
        break;
      }
      j := j + 1;
    }
  }

  lemma {:induction false} MatchedStays(v: string, i: nat, j: nat)
    requires i <= j <= |v| && Matched(v, i) == |COOKIE_NAME|
    ensures Matched(v, j) == |COOKIE_NAME|
    decreases j
  {
    if i < j {
      MatchedStays(v, i, j - 1);
    }
  }

  /** The id that the loop reads: none unless the name was matched somewhere. */
  function ReadId(v: string): string {
    if Matched(v, |v|) == |COOKIE_NAME| then UuidText(v[|COOKIE_NAME|..]) else ""
  }

  // ----- what the loop matches

  /** The first `k` characters of the name end at `p`. */
  predicate EndsWith(v: string, p: nat, k: nat)
    requires k <= p <= |v| && k <= |COOKIE_NAME|
  {
    v[p - k..p] == COOKIE_NAME[..k]
  }

  /** The loop stands inside another partial match when it reaches `p`: the first few
      characters of the name end just there, and the loop took them as a beginning. */
  predicate Blocked(v: string, p: nat)
    requires p <= |v|
    decreases p
  {
    exists k :: 0 < k < |COOKIE_NAME| && k <= p && EndsWith(v, p, k) && !Blocked(v, p - k)
  }

  lemma OneMore(v: string, j: nat, k: nat)
    requires 0 < k <= j <= |v| && k <= |COOKIE_NAME|
    ensures EndsWith(v, j, k) <==> EndsWith(v, j - 1, k - 1) && v[j - 1] == COOKIE_NAME[k - 1]
  {
    assert v[j - k..j] == v[j - k..j - 1] + [v[j - 1]];
    assert COOKIE_NAME[..k] == COOKIE_NAME[..k - 1] + [COOKIE_NAME[k - 1]];
  }

  /** What the count of matched characters means: that many characters of the name end here,
      and the loop was free to begin where they begin. */
  lemma {:induction false} MatchedMeans(v: string, j: nat)
    requires j <= |v| && Matched(v, j) < |COOKIE_NAME|
    ensures EndsWith(v, j, Matched(v, j)) && Matched(v, j - Matched(v, j)) == 0
  {
    if Matched(v, j) > 0 {
      MatchedMeans(v, j - 1);
      OneMore(v, j, Matched(v, j));
    }
  }

  /** From a place where nothing is matched, the characters of the name are matched one by one. */
  lemma {:induction false} MatchedGrows(v: string, p: nat, k: nat)
    requires p + k <= |v| && k <= |COOKIE_NAME| && Matched(v, p) == 0 && EndsWith(v, p + k, k)
    ensures Matched(v, p + k) == k
  {
    if k > 0 {
      OneMore(v, p + k, k);
      MatchedGrows(v, p, k - 1);
    }
  }

  /** The loop is in the middle of a match just where it is blocked. */
  lemma {:induction false} BlockedIff(v: string, p: nat)
    requires p <= |v| && Matched(v, p) < |COOKIE_NAME|
    ensures Blocked(v, p) <==> Matched(v, p) > 0
    decreases p
  {
    hide EndsWith, Matched;
    if Matched(v, p) > 0 {
      MatchedMeans(v, p);
      BlockedIff(v, p - Matched(v, p));
    } else {
      forall k | 0 < k < |COOKIE_NAME| && k <= p && EndsWith(v, p, k) ensures Blocked(v, p - k) {
        NotFullBefore(v, p - k, p);
        BlockedIff(v, p - k);
        if Matched(v, p - k) == 0 {
          MatchedGrows(v, p - k, k);
        }
      }
    }
  }

  lemma NotFullBefore(v: string, i: nat, j: nat)
    requires i <= j <= |v| && Matched(v, j) < |COOKIE_NAME|
    ensures Matched(v, i) < |COOKIE_NAME|
  {
    if Matched(v, i) == |COOKIE_NAME| {
      MatchedStays(v, i, j);
    }
  }

  /** The scan is sound and complete: it ends with the name matched exactly when the name
      occurs somewhere that is not blocked. */
  lemma MatchIff(v: string)
    ensures Matched(v, |v|) == |COOKIE_NAME| <==> exists p :: 0 <= p <= |v| && OccursAt(v, p) && !Blocked(v, p)
  {
    if Matched(v, |v|) == |COOKIE_NAME| {
      var p := FirstMatch(v, |v|);
    } else {
      forall p | 0 <= p <= |v| && OccursAt(v, p) ensures Blocked(v, p) {
        NotFullBefore(v, p, |v|);
        if !Blocked(v, p) {
          BlockedIff(v, p);
          assert COOKIE_NAME[..|COOKIE_NAME|] == COOKIE_NAME;
          MatchedGrows(v, p, |COOKIE_NAME|);
          NotFullBefore(v, p + |COOKIE_NAME|, |v|);
        }
      }
    }
  }

  lemma {:induction false} FirstMatch(v: string, j: nat) returns (p: nat)
    requires j <= |v| && Matched(v, j) == |COOKIE_NAME|
    ensures OccursAt(v, p) && !Blocked(v, p)
  {
    if Matched(v, j - 1) == |COOKIE_NAME| {
      p := FirstMatch(v, j - 1);
    } else {
      MatchedMeans(v, j - 1);
      var n := |COOKIE_NAME|;
      p := j - n;
      NotFullBefore(v, p, j - 1);
      BlockedIff(v, p);
      OneMore(v, j, n);
      assert COOKIE_NAME[..n] == COOKIE_NAME;
    }
  }

  /** What the scan reads: from the fixed offset on when the name occurs at a place that is not
      blocked, and otherwise nothing. */
  lemma ReadIdIff(v: string)
    ensures (exists p :: 0 <= p <= |v| && OccursAt(v, p) && !Blocked(v, p)) ==>
              |v| >= 11 && ReadId(v) == UuidText(v[11..])
    ensures !(exists p :: 0 <= p <= |v| && OccursAt(v, p) && !Blocked(v, p)) ==> ReadId(v) == ""
  {
    hide Matched, Blocked;
    MatchIff(v);
  }

  predicate InName(c: char) {
    c in COOKIE_NAME
  }

  /** The start of the value, and any place after a character that the name does not have,
      such as the space that separates two cookies, is not blocked. */
  lemma FreePlaces(v: string, p: nat)
    requires p <= |v| && (p > 0 ==> !InName(v[p - 1]))
    ensures !Blocked(v, p)
  {
    forall k | 0 < k < |COOKIE_NAME| && k <= p ensures !EndsWith(v, p, k) {
      assert v[p - k..p][k - 1] == v[p - 1];
      assert COOKIE_NAME[..k][k - 1] == COOKIE_NAME[k - 1];
    }
  }

  // ----- reading back what login wrote

  /** The characters of a generated id: lower-case hexadecimal digits and '-'. */
  predicate IsUuid(s: string) {
    |s| == SIZE && forall i :: 0 <= i < |s| ==> '0' <= s[i] <= '9' || 'a' <= s[i] <= 'f' || s[i] == '-'
  }

  /** The id stands first in the header: it is read back. */
  lemma FirstPairReadBack(sid: string, rest: string)
    requires IsUuid(sid)
    ensures ReadId(COOKIE_NAME + sid + rest) == sid
  {
    var v := COOKIE_NAME + sid + rest;
    assert v[0..|COOKIE_NAME|] == COOKIE_NAME;
    FreePlaces(v, 0);
    MatchIff(v);
    assert v[|COOKIE_NAME|..] == sid + rest;
    WholeId(sid, rest);
  }

  /** When the scan matches, the id read is the one of the session pair exactly if that pair
      is the first of the header, or an earlier cookie happens to hold the id where the first
      pair would. The offset counts from the start of the value, not from the match. */
  lemma ReadBackIff(before: string, sid: string, rest: string)
    requires IsUuid(sid) && (before != "" ==> !InName(before[|before| - 1]))
    ensures
      var v := before + COOKIE_NAME + sid + rest;
      ReadId(v) == sid <==> before == "" || (|before| >= |COOKIE_NAME| + SIZE
                                             && before[|COOKIE_NAME|..|COOKIE_NAME| + SIZE] == sid)
  {
    hide Matched, Blocked, UuidText;
    var n := |COOKIE_NAME|;
    var v := before + COOKIE_NAME + sid + rest;
    assert v[|before|..|before| + n] == COOKIE_NAME;
    FreePlaces(v, |before|);
    MatchIff(v);
    if before == "" {
      assert v == COOKIE_NAME + sid + rest;
      FirstPairReadBack(sid, rest);
    } else if |before| >= n + SIZE {
      assert v[n..] == before[n..n + SIZE] + (before[n + SIZE..] + COOKIE_NAME + sid + rest);
      FixedText(before[n..n + SIZE], before[n + SIZE..] + COOKIE_NAME + sid + rest, sid);
    } else {
      NameInWindow(before, sid, rest);
    }
  }

  /** Reading 36 characters gives the id just when they are the id. */
  lemma FixedText(a: string, b: string, sid: string)
    requires |a| == SIZE && IsUuid(sid)
    ensures UuidText(a + b) == sid <==> a == sid
  {
    if UuidText(a + b) == sid {
      assert (a + b)[..SIZE] == a;
      assert CStr(a + b)[..SIZE] == (a + b)[..SIZE];
    } else if a == sid {
      WholeId(sid, b);
    }
  }

  /** When the pair begins inside the window that is read, the window holds a character of
      the name that no id has. */
  lemma NameInWindow(before: string, sid: string, rest: string)
    requires IsUuid(sid) && 0 < |before| < |COOKIE_NAME| + SIZE
    ensures
      var v := before + COOKIE_NAME + sid + rest;
      UuidText(v[|COOKIE_NAME|..]) != sid
  {
    var n := |COOKIE_NAME|;
    var v := before + COOKIE_NAME + sid + rest;
    var w := v[n..];
    var i := if |before| >= n then |before| - n else |before| - 1;
    assert w[..SIZE][i] == w[i] == v[n + i] == COOKIE_NAME[n + i - |before|];
    if UuidText(w) == sid {
      TextPrefix(w, sid);
      assert false;
    }
  }

  lemma TextPrefix(w: string, sid: string)
    requires UuidText(w) == sid && |sid| == SIZE
    ensures |w| >= SIZE && w[..SIZE] == sid
  {
    assert CStr(w)[..SIZE] == w[..SIZE];
  }

  /** A header that carries another cookie first does not give the id back. */
  lemma SecondPairNotReadBack(sid: string)
    requires IsUuid(sid)
    ensures Matched("a=b; " + COOKIE_NAME + sid, |"a=b; " + COOKIE_NAME + sid|) == |COOKIE_NAME|
    ensures ReadId("a=b; " + COOKIE_NAME + sid) != sid
  {
    var v := "a=b; " + COOKIE_NAME + sid;
    assert v + "" == v;
    ReadBackIff("a=b; ", sid, "");
    assert v[5..5 + |COOKIE_NAME|] == COOKIE_NAME;
    FreePlaces(v, 5);
    MatchIff(v);
  }

  // ----- the headers of a request

  /** The loop over the headers: only the first one named "cookie" is scanned. */
  method FindSession(headers: seq<Header>) returns (sid: string)
    ensures sid == SessionOf(headers)
  {
    sid := "";
    var i := 0;
    while i < |headers|
      invariant i <= |headers| && sid == ""
      invariant SessionOf(headers) == SessionOf(headers[i..])
    {
      if headers[i].name != "cookie" {
        i := i + 1;
        continue;
      }
      sid := Scan(headers[i].value);
      break;
    }
  }

  function SessionOf(headers: seq<Header>): string {
    if headers == [] then ""
    else if headers[0].name == "cookie" then ReadId(headers[0].value)
    else SessionOf(headers[1..])
  }

  /** A header is found as a cookie header whatever the case of its name. */
  lemma NamedCookie(name: string)
    ensures Lower(name) == "cookie" <==> SameName(name, "cookie")
  {
    LowerForgetsCase(name, "cookie");
    assert Lower("cookie") == "cookie";
  }

  lemma {:induction false} NoCookie(headers: seq<Header>)
    requires forall i :: 0 <= i < |headers| ==> headers[i].name != "cookie"
    ensures SessionOf(headers) == ""
  {
    if headers != [] {
      NoCookie(headers[1..]);
    }
  }

  /** From login to logout: the pair that login hands out, sent back as the first pair of the
      first cookie header of a request, however that request is cut into reads and whatever
      the case of the header's name, is read as the id that login issued. */
  lemma LoginReachesLogout(sid: string, r: CutRequest, h: nat, rest: string)
    requires IsUuid(sid) && h < |r.headers|
    requires SameName(Flat(r.headers[h].name), "cookie") && Flat(r.headers[h].value) == "rp-session=" + sid + rest
    requires forall i :: 0 <= i < h ==> !SameName(Flat(r.headers[i].name), "cookie")
    ensures ApplyAll(EMPTY_DRAFT, Emit(r)).Some?
    ensures SessionOf(ApplyAll(EMPTY_DRAFT, Emit(r)).value.headers) == sid
    ensures SetCookie(sid) == "rp-session=" + sid + ";"
  {
    hide Lower, SameName, ReadId;
    AssembledWhole(r);
    HeadersAt(r.headers);
    forall i | 0 <= i <= h
      ensures Lower(Flat(r.headers[i].name)) == "cookie" <==> SameName(Flat(r.headers[i].name), "cookie")
    {
      NamedCookie(Flat(r.headers[i].name));
    }
    FirstCookie(AllHeaders(r), h);
    FirstPairReadBack(sid, rest);
  }

  /** A request without a cookie header, in whatever case, carries no id. */
  lemma NoCookieUnread(r: CutRequest)
    requires forall i :: 0 <= i < |r.headers| ==> !SameName(Flat(r.headers[i].name), "cookie")
    requires forall i :: 0 <= i < |r.trailers| ==> !SameName(Flat(r.trailers[i].name), "cookie")
    ensures SessionOf(AllHeaders(r)) == ""
  {
    hide Lower, SameName, ReadId;
    HeadersAt(r.headers);
    HeadersAt(r.trailers);
    forall i | 0 <= i < |AllHeaders(r)| ensures AllHeaders(r)[i].name != "cookie" {
      var n := |r.headers|;
      NamedCookie(Flat(if i < n then r.headers[i].name else r.trailers[i - n].name));
    }
    NoCookie(AllHeaders(r));
  }

  lemma {:induction false} HeadersAt(hs: seq<CutHeader>)
    ensures |Headers(hs)| == |hs|
    ensures forall i {:trigger hs[i]} {:trigger Headers(hs)[i]} :: 0 <= i < |hs| ==>
              Headers(hs)[i] == Header(Lower(Flat(hs[i].name)), Flat(hs[i].value))
  {
    hide Lower, Flat;
    if hs != [] {
      HeadersAt(hs[..|hs| - 1]);
    }
  }

  lemma {:induction false} FirstCookie(headers: seq<Header>, h: nat)
    requires h < |headers| && headers[h].name == "cookie"
    requires forall i :: 0 <= i < h ==> headers[i].name != "cookie"
    ensures SessionOf(headers) == ReadId(headers[h].value)
  {
    if h > 0 {
      FirstCookie(headers[1..], h - 1);
    }
  }
}
