/** Byte buffers used as C strings: text up to the first NUL. */
module Bytes {

  const NUL := '\0'

  predicate NulFree(s: string) {
    forall i :: 0 <= i < |s| ==> s[i] != NUL
  }

  /** What `strlen` and friends see of a buffer. */
  function CStr(s: string): (r: string)
    ensures |r| <= |s| && r == s[..|r|] && NulFree(r)
    ensures |r| < |s| ==> s[|r|] == NUL
  {
    if s == "" || s[0] == NUL then "" else
      var rest := CStr(s[1..]);
      assert [s[0]] + rest == s[..1 + |rest|];
      [s[0]] + rest
  }

  /** The text of a buffer is the one NUL-free prefix that a NUL or its end follows. */
  lemma {:induction false} CStrIs(s: string, n: nat)
    requires n <= |s| && NulFree(s[..n]) && (n < |s| ==> s[n] == NUL)
    ensures CStr(s) == s[..n]
  {
    if n > 0 {
      assert s[..n][0] == s[0] && s[..n][1..] == s[1..][..n - 1];
      CStrIs(s[1..], n - 1);
      assert s[..n] == [s[0]] + s[1..][..n - 1];
    }
  }

  /** The first `n` bytes, or all of them. */
  function Take(s: string, n: nat): (r: string)
    ensures r <= s && |r| == if n < |s| then n else |s|
  {
    if |s| <= n then s else s[..n]
  }

  function Zeros(n: nat): (r: string)
    ensures |r| == n && forall i :: 0 <= i < n ==> r[i] == NUL
  {
    if n == 0 then "" else Zeros(n - 1) + [NUL]
  }

  /** The `n` bytes that `strncpy(dst, src, n)` writes: the text of `src`, cut at `n`, and NULs. */
  function StrNCpy(src: string, n: nat): (r: string)
    ensures |r| == n
  {
    var text := Take(CStr(src), n);
    text + Zeros(n - |text|)
  }

  /** Read back behind a terminator, the copy is the text cut at `n`. */
  lemma StrNCpyText(src: string, n: nat, rest: string)
    requires rest != "" && rest[0] == NUL
    ensures CStr(StrNCpy(src, n) + rest) == Take(CStr(src), n)
  {
    var text := Take(CStr(src), n);
    var buf := StrNCpy(src, n) + rest;
    assert buf[..|text|] == text;
    CStrIs(buf, |text|);
  }
}
