/** The 36-character ids, kept in a fixed buffer behind a terminator. */
module Uuid {
  import opened Bytes

  const SIZE := 36
  const BUFFER := 40

  /** The id that the text `src` is read as: cut at 36 characters. */
  function UuidText(src: string): (r: string)
    ensures NulFree(r) && |r| <= SIZE
  {
    Take(CStr(src), SIZE)
  }

  lemma StrNCpyAt(src: string, n: nat, i: nat)
    requires i < n
    ensures StrNCpy(src, n)[i] == if i < |CStr(src)| then src[i] else NUL
  {
  }

  lemma TextEnds(s: string, i: nat)
    ensures i <= |CStr(s)| ==> (i == |CStr(s)| <==> i >= |s| || s[i] == NUL)
  {
  }

  /** `strncpy` into `dst` from position `at` on. */
  method CopyInto(dst: array<char>, at: nat, src: string, n: nat)
    requires at + n <= dst.Length
    modifies dst
    ensures dst[..] == old(dst[..])[..at] + StrNCpy(src, n) + old(dst[..])[at + n..]
  {
    hide CStr, StrNCpy;
    var i, ended := 0, false;
    while i < n
      invariant i <= n && (ended <==> |CStr(src)| < i)
      invariant forall k :: 0 <= k < dst.Length ==>
                  dst[k] == if at <= k < at + i then StrNCpy(src, n)[k - at] else old(dst[k])
    {
      StrNCpyAt(src, n, i);
      TextEnds(src, i);
      var c := if ended || i >= |src| then NUL else src[i];
      dst[at + i] := c;
      if c == NUL {
        ended := true;
      }
      i := i + 1;
    }
  }

  class Uuid {
    const str: array<char>

    ghost predicate Valid()
      reads this, str
    {
      str.Length == BUFFER && str[SIZE] == NUL
    }

    /** `get_string` */
    function Text(): (r: string)
      reads this, str
      requires Valid()
      ensures NulFree(r)
    {
      CStr(str[..])
    }

    constructor ()
      ensures Valid() && fresh(str) && Text() == ""
    {
      str := new char[BUFFER](_ => NUL);
      new;
      CStrIs(str[..], 0);
    }

    /** The copies of another id, which leave the terminator as it is. */
    method CopyFrom(other: Uuid)
      requires Valid() && other.Valid() && other.str != str
      modifies str
      ensures Valid() && Text() == UuidText(other.Text())
    {
      var src := other.str[..];
      CopyInto(str, 0, src, SIZE);
      StrNCpyText(src, SIZE, str[SIZE..]);
      assert str[..] == StrNCpy(src, SIZE) + str[SIZE..];
      TextOfText(src);
    }

    /** The assignment from text. */
    method Assign(src: string)
      requires Valid()
      modifies str
      ensures Valid() && Text() == UuidText(src)
    {
      CopyInto(str, 0, src, SIZE);
      str[SIZE] := NUL;
      StrNCpyText(src, SIZE, str[SIZE..]);
      assert str[..] == StrNCpy(src, SIZE) + str[SIZE..];
    }

    predicate IsEmpty()
      requires Valid()
      reads this, str
    {
      str[0] == NUL
    }
  }

  lemma TextOfText(src: string)
    ensures CStr(CStr(src)) == CStr(src)
  {
    CStrIs(CStr(src), |CStr(src)|);
  }

  /** An id is empty exactly when its text is. */
  lemma EmptyText(u: Uuid)
    requires u.Valid()
    ensures u.IsEmpty() <==> u.Text() == ""
  {
  }

  /** Reading an id of 36 characters back changes nothing, whatever follows it in the source. */
  lemma WholeId(id: string, rest: string)
    requires |id| == SIZE && NulFree(id)
    ensures UuidText(id + rest) == id
  {
    CStrPrefix(id, rest);
    assert (id + CStr(rest))[..SIZE] == id;
  }

  lemma CStrPrefix(a: string, b: string)
    requires NulFree(a)
    ensures CStr(a + b) == a + CStr(b)
  {
    var n := |a| + |CStr(b)|;
    assert (a + b)[..n] == a + CStr(b);
    CStrIs(a + b, n);
  }
}
