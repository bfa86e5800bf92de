/** How the parser's callbacks assemble a request. The parser reports each token in as many
    pieces as the reads happened to cut it into. */
module RequestAssembly {
  import opened Text

  datatype Header = Header(name: string, value: string)

  /** The scratch string and the request under construction. */
  datatype Draft = Draft(tmp: string, uri: string, headers: seq<Header>, body: string)

  const EMPTY_DRAFT := Draft("", "", [], "")

  datatype Callback =
    | Url(at: string)
    | UrlComplete
    | HeaderField(at: string)
    | HeaderFieldComplete
    | HeaderValue(at: string)
    | HeaderValueComplete
    | Body(at: string)

  /** `std::tolower` in the C locale. */
  function ToLower(c: char): char {
    if 'A' <= c <= 'Z' then (c as int + 32) as char else c
  }

  function Lower(s: string): (r: string)
    ensures |r| == |s|
    ensures forall i :: 0 <= i < |s| ==> r[i] == ToLower(s[i])
  {
    seq(|s|, i requires 0 <= i < |s| => ToLower(s[i]))
  }

  const CAPITALS := "ABCDEFGHIJKLMNOPQRSTUVWXYZ"
  const SMALL := "abcdefghijklmnopqrstuvwxyz"

  lemma Alphabets(k: nat)
    requires k < 26
    ensures |CAPITALS| == |SMALL| == 26
    ensures CAPITALS[k] as int == 'A' as int + k && SMALL[k] as int == 'a' as int + k
  {
  }

  /** Each capital becomes the small letter at its place in the alphabet; every other character
      stays, and no capital is left. */
  lemma LowerMeans(s: string, i: nat)
    requires i < |s|
    ensures 'A' <= s[i] <= 'Z' ==> Lower(s)[i] == SMALL[s[i] as int - 'A' as int]
    ensures !('A' <= s[i] <= 'Z') ==> Lower(s)[i] == s[i]
    ensures !('A' <= Lower(s)[i] <= 'Z')
  {
    if 'A' <= s[i] <= 'Z' {
      Alphabets(s[i] as int - 'A' as int);
    }
  }

  /** The same letter, small or capital, or the same character. */
  ghost predicate SameLetter(c: char, d: char) {
    c == d || exists k :: 0 <= k < 26 && ((c == CAPITALS[k] && d == SMALL[k]) || (c == SMALL[k] && d == CAPITALS[k]))
  }

  /** The same name when the case of letters does not count. */
  ghost predicate SameName(a: string, b: string) {
    |a| == |b| && forall i {:trigger a[i]} {:trigger b[i]} :: 0 <= i < |a| ==> SameLetter(a[i], b[i])
  }

  lemma LettersPair(c: char, d: char)
    requires 'A' <= c <= 'Z' && d as int == c as int + 32
    ensures SameLetter(c, d) && SameLetter(d, c)
  {
    hide CAPITALS, SMALL;
    var k := c as int - 'A' as int;
    Alphabets(k);
    assert CAPITALS[k] == c && SMALL[k] == d;
  }

  lemma PairLetters(c: char, d: char)
    requires SameLetter(c, d) && c != d
    ensures ('A' <= c <= 'Z' && d as int == c as int + 32) || ('A' <= d <= 'Z' && c as int == d as int + 32)
  {
    hide CAPITALS, SMALL;
    Alphabets(0);
    var k :| 0 <= k < 26 && ((c == CAPITALS[k] && d == SMALL[k]) || (c == SMALL[k] && d == CAPITALS[k]));
    Alphabets(k);
  }

  lemma SameLetterIff(c: char, d: char)
    ensures SameLetter(c, d) <==> ToLower(c) == ToLower(d)
  {
    hide CAPITALS, SMALL;
    if c != d && SameLetter(c, d) {
      PairLetters(c, d);
    }
    if c != d && ToLower(c) == ToLower(d) {
      if 'A' <= c <= 'Z' {
        LettersPair(c, d);
      } else {
        LettersPair(d, c);
      }
    }
  }

  /** Lower-casing forgets the case of letters and nothing else. */
  lemma LowerForgetsCase(a: string, b: string)
    ensures Lower(a) == Lower(b) <==> SameName(a, b)
  {
    hide SameLetter, ToLower;
    if Lower(a) == Lower(b) {
      assert |Lower(a)| == |Lower(b)|;
      forall i | 0 <= i < |a| ensures SameLetter(a[i], b[i]) {
        SameLetterIff(a[i], b[i]);
        assert Lower(a)[i] == Lower(b)[i];
      }
    }
    if SameName(a, b) {
      forall i | 0 <= i < |a| ensures Lower(a)[i] == Lower(b)[i] {
        SameLetterIff(a[i], b[i]);
      }
      assert Lower(a) == Lower(b);
    }
  }

  /** The value of a header can only complete after its name. */
  predicate Accepts(d: Draft, cb: Callback) {
    cb.HeaderValueComplete? ==> d.headers != []
  }

  function Apply(d: Draft, cb: Callback): Draft
    requires Accepts(d, cb)
  {
    match cb
    case Url(at) => d.(tmp := d.tmp + at)
    case HeaderField(at) => d.(tmp := d.tmp + at)
    case HeaderValue(at) => d.(tmp := d.tmp + at)
    case UrlComplete => d.(uri := d.tmp, tmp := "")
    case HeaderFieldComplete => d.(headers := d.headers + [Header(Lower(d.tmp), "")], tmp := "")
    case HeaderValueComplete =>
      var last := |d.headers| - 1;
      d.(headers := d.headers[last := d.headers[last].(value := d.tmp)], tmp := "")
    case Body(at) => d.(body := d.body + at)
  }

  /** The callbacks as the settings table of the parser holds them. */
  class Assembler {
    var tmp: string
    var uri: string
    var headers: seq<Header>
    var body: string

    function State(): Draft
      reads this
    {
      Draft(tmp, uri, headers, body)
    }

    constructor ()
      ensures State() == EMPTY_DRAFT
    {
      tmp, uri, headers, body := "", "", [], "";
    }

    /** A moved-from string is empty. */
    method TakeTmp() returns (s: string)
      modifies this`tmp
      ensures s == old(tmp) && tmp == ""
    {
      s := tmp;
      tmp := "";
    }

    method AppendTmp(at: string)
      modifies this`tmp
      ensures tmp == old(tmp) + at
    {
      tmp := tmp + at;
    }

    method OnUrlComplete()
      modifies this
      ensures State() == Apply(old(State()), UrlComplete)
    {
      uri := TakeTmp();
    }

    method OnHeaderFieldComplete()
      modifies this
      ensures State() == Apply(old(State()), HeaderFieldComplete)
    {
      var name := TakeTmp();
      ghost var token := name;
      var i := 0;
      while i < |name|
        invariant 0 <= i <= |name| == |token|
        invariant forall k :: 0 <= k < i ==> name[k] == ToLower(token[k])
        invariant forall k :: i <= k < |name| ==> name[k] == token[k]
      {
        name := name[i := ToLower(name[i])];
        i := i + 1;
      }
      assert name == Lower(token);
      headers := headers + [Header(name, "")];
    }

    method OnHeaderValueComplete()
      requires headers != []
      modifies this
      ensures State() == Apply(old(State()), HeaderValueComplete)
    {
      var value := TakeTmp();
      var last := |headers| - 1;
      headers := headers[last := headers[last].(value := value)];
    }

    method OnBody(at: string)
      modifies this`body
      ensures body == old(body) + at
    {
      body := body + at;
    }

    /** The parser calls back. */
    method Dispatch(cb: Callback)
      requires Accepts(State(), cb)
      modifies this
      ensures State() == Apply(old(State()), cb)
    {
      match cb
      case Url(at) => AppendTmp(at);
      case HeaderField(at) => AppendTmp(at);
      case HeaderValue(at) => AppendTmp(at);
      case UrlComplete => OnUrlComplete();
      case HeaderFieldComplete => OnHeaderFieldComplete();
      case HeaderValueComplete => OnHeaderValueComplete();
      case Body(at) => OnBody(at);
    }
  }

  // ----- the callbacks of one request, cut in pieces

  datatype CutHeader = CutHeader(name: seq<string>, value: seq<string>)

  /** Trailers are the header fields that follow a chunked body. */
  datatype CutRequest = CutRequest(
    uri: seq<string>, headers: seq<CutHeader>, body: seq<string>, trailers: seq<CutHeader>)

  function Flat(pieces: seq<string>): string {
    if pieces == [] then "" else Flat(pieces[..|pieces| - 1]) + pieces[|pieces| - 1]
  }

  lemma NoPieces()
    ensures Flat([]) == ""
  {
  }

  /** A token is its pieces, one behind the other. */
  lemma {:induction false} FlatAppend(a: seq<string>, b: seq<string>)
    ensures Flat(a + b) == Flat(a) + Flat(b)
  {
    hide Flat;
    NoPieces();
    if b == [] {
      assert a + b == a && Flat(a) + "" == Flat(a);
    } else {
      var init, last := b[..|b| - 1], b[|b| - 1];
      FlatAppend(a, init);
      FlatSnoc(a + init, last);
      FlatSnoc(init, last);
      assert a + init + [last] == a + b && init + [last] == b;
      assert Flat(a) + Flat(init) + last == Flat(a) + (Flat(init) + last);
    }
  }

  lemma FlatSnoc(pieces: seq<string>, last: string)
    ensures Flat(pieces + [last]) == Flat(pieces) + last
  {
    assert (pieces + [last])[..|pieces|] == pieces;
  }

  lemma FlatOne(s: string)
    ensures Flat([s]) == s
  {
    assert [s][..0] == [];
  }

  datatype Token = UrlToken | NameToken | ValueToken | BodyToken

  function Piece(token: Token, at: string): Callback {
    match token
    case UrlToken => Url(at)
    case NameToken => HeaderField(at)
    case ValueToken => HeaderValue(at)
    case BodyToken => Body(at)
  }

  function Pieces(token: Token, pieces: seq<string>): seq<Callback> {
    if pieces == [] then [] else Pieces(token, pieces[..|pieces| - 1]) + [Piece(token, pieces[|pieces| - 1])]
  }

  function EmitHeader(h: CutHeader): seq<Callback> {
    (Pieces(NameToken, h.name) + [HeaderFieldComplete]) + (Pieces(ValueToken, h.value) + [HeaderValueComplete])
  }

  function EmitHeaders(hs: seq<CutHeader>): seq<Callback> {
    if hs == [] then [] else EmitHeaders(hs[..|hs| - 1]) + EmitHeader(hs[|hs| - 1])
  }

  /** The callbacks in the order in which the parser makes them. */
  function Emit(r: CutRequest): seq<Callback> {
    (Pieces(UrlToken, r.uri) + [UrlComplete]) + EmitHeaders(r.headers)
    + Pieces(BodyToken, r.body) + EmitHeaders(r.trailers)
  }

  function Headers(hs: seq<CutHeader>): seq<Header> {
    if hs == [] then []
    else Headers(hs[..|hs| - 1]) + [Header(Lower(Flat(hs[|hs| - 1].name)), Flat(hs[|hs| - 1].value))]
  }

  /** The state after a list of callbacks; none when one of them could not be accepted. */
  function ApplyAll(d: Draft, cbs: seq<Callback>): Option<Draft> {
    if cbs == [] then Some(d)
    else
      var before := ApplyAll(d, cbs[..|cbs| - 1]);
      if before.Some? && Accepts(before.value, cbs[|cbs| - 1]) then Some(Apply(before.value, cbs[|cbs| - 1]))
      else None
  }

  lemma {:induction false} ApplyAppend(d: Draft, a: seq<Callback>, b: seq<Callback>)
    requires ApplyAll(d, a).Some?
    ensures ApplyAll(d, a + b) == ApplyAll(ApplyAll(d, a).value, b)
  {
    if b == [] {
      assert a + b == a;
    } else {
      ApplyAppend(d, a, b[..|b| - 1]);
      assert (a + b)[..|a + b| - 1] == a + b[..|b| - 1];
    }
  }

  lemma ApplyOne(d: Draft, cb: Callback)
    requires Accepts(d, cb)
    ensures ApplyAll(d, [cb]) == Some(Apply(d, cb))
  {
    assert [cb][..0] == [];
  }

  lemma ApplyNone(d: Draft)
    ensures ApplyAll(d, []) == Some(d)
  {
  }

  lemma {:induction false} ApplyPieces(d: Draft, token: Token, pieces: seq<string>)
    ensures ApplyAll(d, Pieces(token, pieces)) ==
              Some(if token == BodyToken then d.(body := d.body + Flat(pieces)) else d.(tmp := d.tmp + Flat(pieces)))
  {
    hide ApplyAll;
    if pieces == [] {
      ApplyNone(d);
      assert d.tmp + "" == d.tmp && d.body + "" == d.body;
    } else {
      var init, last := pieces[..|pieces| - 1], pieces[|pieces| - 1];
      ApplyPieces(d, token, init);
      ApplyOne(ApplyAll(d, Pieces(token, init)).value, Piece(token, last));
      ApplyAppend(d, Pieces(token, init), [Piece(token, last)]);
      assert d.tmp + Flat(init) + last == d.tmp + (Flat(init) + last);
      assert d.body + Flat(init) + last == d.body + (Flat(init) + last);
    }
  }

  /** A token gathered in the scratch string and then completed. */
  lemma ApplyToken(d: Draft, token: Token, pieces: seq<string>, complete: Callback)
    requires d.tmp == "" && token != BodyToken && Accepts(d, complete)
    ensures ApplyAll(d, Pieces(token, pieces) + [complete]) == Some(Apply(d.(tmp := Flat(pieces)), complete))
  {
    ApplyPieces(d, token, pieces);
    assert "" + Flat(pieces) == Flat(pieces);
    ApplyOne(d.(tmp := Flat(pieces)), complete);
    ApplyAppend(d, Pieces(token, pieces), [complete]);
  }

  lemma ApplyHeader(d: Draft, h: CutHeader)
    requires d.tmp == ""
    ensures ApplyAll(d, EmitHeader(h)) ==
              Some(d.(headers := d.headers + [Header(Lower(Flat(h.name)), Flat(h.value))]))
  {
    hide ApplyAll, Pieces, Flat, Lower;
    var name, value := Pieces(NameToken, h.name) + [HeaderFieldComplete], Pieces(ValueToken, h.value) + [HeaderValueComplete];
    var d1 := d.(headers := d.headers + [Header(Lower(Flat(h.name)), "")]);
    ApplyToken(d, NameToken, h.name, HeaderFieldComplete);
    assert Apply(d.(tmp := Flat(h.name)), HeaderFieldComplete) == d1;
    ApplyToken(d1, ValueToken, h.value, HeaderValueComplete);
    assert Apply(d1.(tmp := Flat(h.value)), HeaderValueComplete).headers ==
           d.headers + [Header(Lower(Flat(h.name)), Flat(h.value))];
    ApplyAppend(d, name, value);
    assert EmitHeader(h) == name + value;
  }

  lemma {:induction false} ApplyHeaders(d: Draft, hs: seq<CutHeader>)
    requires d.tmp == ""
    ensures ApplyAll(d, EmitHeaders(hs)) == Some(d.(headers := d.headers + Headers(hs)))
  {
    if hs == [] {
      assert d.headers + [] == d.headers;
    } else {
      var init, h := hs[..|hs| - 1], hs[|hs| - 1];
      ApplyHeaders(d, init);
      var d1 := d.(headers := d.headers + Headers(init));
      ApplyHeader(d1, h);
      ApplyAppend(d, EmitHeaders(init), EmitHeader(h));
      assert d1.headers + [Header(Lower(Flat(h.name)), Flat(h.value))] == d.headers + Headers(hs);
    }
  }

  /** The header fields of a request, trailers included. */
  function AllHeaders(r: CutRequest): seq<Header> {
    Headers(r.headers) + Headers(r.trailers)
  }

  /** What a request adds to a draft that has no token in progress. */
  function Added(d: Draft, r: CutRequest): Draft {
    Draft("", Flat(r.uri), d.headers + AllHeaders(r), d.body + Flat(r.body))
  }

  lemma AddsRequest(d: Draft, r: CutRequest)
    requires d.tmp == ""
    ensures ApplyAll(d, Emit(r)) == Some(Added(d, r))
  {
    hide ApplyAll, Emit, EmitHeaders, Pieces, Headers, Flat;
    var url, headers := Pieces(UrlToken, r.uri) + [UrlComplete], EmitHeaders(r.headers);
    var body, trailers := Pieces(BodyToken, r.body), EmitHeaders(r.trailers);
    ApplyToken(d, UrlToken, r.uri, UrlComplete);
    var d1 := d.(uri := Flat(r.uri));
    assert Apply(d.(tmp := Flat(r.uri)), UrlComplete) == d1;
    ApplyHeaders(d1, r.headers);
    ApplyAppend(d, url, headers);
    var d2 := d1.(headers := d1.headers + Headers(r.headers));
    ApplyPieces(d2, BodyToken, r.body);
    ApplyAppend(d, url + headers, body);
    var d3 := d2.(body := d2.body + Flat(r.body));
    ApplyHeaders(d3, r.trailers);
    ApplyAppend(d, url + headers + body, trailers);
    assert d.headers + Headers(r.headers) + Headers(r.trailers) == d.headers + AllHeaders(r);
    EmitParts(r);
  }

  lemma EmitParts(r: CutRequest)
    ensures Emit(r) == Pieces(UrlToken, r.uri) + [UrlComplete] + EmitHeaders(r.headers)
                       + Pieces(BodyToken, r.body) + EmitHeaders(r.trailers)
  {
  }

  /** Assembling the pieces of a request gives the request: each token whole, header names in
      lower case, every value with its own name. */
  lemma AssembledWhole(r: CutRequest)
    ensures ApplyAll(EMPTY_DRAFT, Emit(r)) == Some(Draft("", Flat(r.uri), AllHeaders(r), Flat(r.body)))
  {
    AddsRequest(EMPTY_DRAFT, r);
    assert [] + AllHeaders(r) == AllHeaders(r) && "" + Flat(r.body) == Flat(r.body);
  }

  /** When the parser goes on to a second request within the same read, the two are merged:
      the target of the second, with the headers and bodies of both. */
  lemma PipelinedMerged(r: CutRequest, q: CutRequest)
    ensures ApplyAll(EMPTY_DRAFT, Emit(r) + Emit(q)) ==
              Some(Draft("", Flat(q.uri), AllHeaders(r) + AllHeaders(q), Flat(r.body) + Flat(q.body)))
  {
    AssembledWhole(r);
    ApplyAppend(EMPTY_DRAFT, Emit(r), Emit(q));
    AddsRequest(ApplyAll(EMPTY_DRAFT, Emit(r)).value, q);
  }

  ghost predicate SameFields(hs: seq<CutHeader>, gs: seq<CutHeader>) {
    && |hs| == |gs|
    && forall i {:trigger hs[i]} {:trigger gs[i]} :: 0 <= i < |hs| ==>
         && SameName(Flat(hs[i].name), Flat(gs[i].name))
         && Flat(hs[i].value) == Flat(gs[i].value)
  }

  ghost predicate SameTokens(r: CutRequest, q: CutRequest) {
    && Flat(r.uri) == Flat(q.uri) && Flat(r.body) == Flat(q.body)
    && SameFields(r.headers, q.headers) && SameFields(r.trailers, q.trailers)
  }

  lemma {:induction false} SameHeaders(hs: seq<CutHeader>, gs: seq<CutHeader>)
    requires SameFields(hs, gs)
    ensures Headers(hs) == Headers(gs)
  {
    if hs != [] {
      SameHeaders(hs[..|hs| - 1], gs[..|gs| - 1]);
      LowerForgetsCase(Flat(hs[|hs| - 1].name), Flat(gs[|gs| - 1].name));
    }
  }

  /** Where the reads cut the bytes, and the case of header names, make no difference. */
  lemma FragmentationIrrelevant(r: CutRequest, q: CutRequest)
    requires SameTokens(r, q)
    ensures ApplyAll(EMPTY_DRAFT, Emit(r)) == ApplyAll(EMPTY_DRAFT, Emit(q))
  {
    AssembledWhole(r);
    AssembledWhole(q);
    SameHeaders(r.headers, q.headers);
    SameHeaders(r.trailers, q.trailers);
  }

  /** The parser at work on a request: the object ends up with the assembled draft. */
  method Assemble(callbacks: seq<Callback>) returns (a: Assembler)
    requires ApplyAll(EMPTY_DRAFT, callbacks).Some?
    ensures fresh(a) && Some(a.State()) == ApplyAll(EMPTY_DRAFT, callbacks)
  {
    a := new Assembler();
    var i := 0;
    while i < |callbacks|
      invariant i <= |callbacks| && fresh(a)
      invariant Some(a.State()) == ApplyAll(EMPTY_DRAFT, callbacks[..i])
    {
      NextCallback(callbacks, i);
      a.Dispatch(callbacks[i]);
      i := i + 1;
    }
    assert callbacks[..i] == callbacks;
  }

  lemma NextCallback(cbs: seq<Callback>, i: nat)
    requires i < |cbs| && ApplyAll(EMPTY_DRAFT, cbs).Some?
    ensures ApplyAll(EMPTY_DRAFT, cbs[..i]).Some? && Accepts(ApplyAll(EMPTY_DRAFT, cbs[..i]).value, cbs[i])
    ensures ApplyAll(EMPTY_DRAFT, cbs[..i + 1]) == Some(Apply(ApplyAll(EMPTY_DRAFT, cbs[..i]).value, cbs[i]))
  {
    assert cbs[..i + 1][..i] == cbs[..i];
    PrefixApplied(cbs, i + 1);
  }

  lemma {:induction false} PrefixApplied(cbs: seq<Callback>, i: nat)
    requires i <= |cbs| && ApplyAll(EMPTY_DRAFT, cbs).Some?
    ensures ApplyAll(EMPTY_DRAFT, cbs[..i]).Some?
    decreases |cbs|
  {
    if i < |cbs| {
      PrefixApplied(cbs[..|cbs| - 1], i);
      assert cbs[..|cbs| - 1][..i] == cbs[..i];
    } else {
      assert cbs[..i] == cbs;
    }
  }
}
