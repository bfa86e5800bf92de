/** The bytes of a response: where its head ends, and the lengths it announces. */
module ResponseFraming {
  import opened RequestAssembly

  const CRLF := "\r\n"
  const SEPARATOR := ": "

  datatype Response = Response(status: nat, headers: seq<Header>, content: string)

  /** The reason phrases; an unknown status is written as 500. */
  function Reason(status: nat): (r: string)
    ensures |r| >= 4
  {
    match status
    case 200 => "200 OK"
    case 201 => "201 Created"
    case 202 => "202 Accepted"
    case 204 => "204 No Content"
    case 300 => "300 Multiple Choices"
    case 301 => "301 Moved Permanently"
    case 302 => "302 Moved Temporarily"
    case 304 => "304 Not Modified"
    case 400 => "400 Bad Request"
    case 401 => "401 Unauthorized"
    case 403 => "403 Forbidden"
    case 404 => "404 Not Found"
    case 501 => "501 Not Implemented"
    case 502 => "502 Bad Gateway"
    case 503 => "503 Service Unavailable"
    case _ => "500 Internal Server Error"
  }

  function Digit(k: nat): (c: char)
    requires k < 10
    ensures c as int - '0' as int == k && c != '\r' && c != '\n'
  {
    ('0' as int + k) as char
  }

  /** `std::to_string` */
  function Decimal(n: nat): (r: string)
    ensures |r| > 0
  {
    (if n < 10 then "" else Decimal(n / 10)) + [Digit(n % 10)]
  }

  /** The number that a run of digits stands for. */
  function Number(s: string): int {
    if s == "" then 0 else 10 * Number(s[..|s| - 1]) + (s[|s| - 1] as int - '0' as int)
  }

  lemma NumberSnoc(s: string, k: nat)
    requires k < 10
    ensures Number(s + [Digit(k)]) == 10 * Number(s) + k
  {
    assert (s + [Digit(k)])[..|s|] == s;
  }

  /** A written length reads back as the length. */
  lemma {:induction false} DecimalRoundTrip(n: nat)
    ensures Number(Decimal(n)) == n
  {
    if n >= 10 {
      DecimalRoundTrip(n / 10);
      NumberSnoc(Decimal(n / 10), n % 10);
    } else {
      NumberSnoc("", n);
      assert "" + [Digit(n)] == [Digit(n)];
    }
  }

  /** It holds digits only, and begins with a zero only when it is zero. */
  lemma {:induction false} DecimalPlain(n: nat)
    ensures forall i :: 0 <= i < |Decimal(n)| ==> '0' <= Decimal(n)[i] <= '9'
    ensures Decimal(n)[0] == '0' <==> n == 0
    ensures n == 0 ==> |Decimal(n)| == 1
  {
    if n >= 10 {
      DecimalPlain(n / 10);
    }
  }

  lemma {:induction false} DecimalUnbroken(n: nat)
    ensures Unbroken(Decimal(n))
  {
    if n >= 10 {
      DecimalUnbroken(n / 10);
      JoinUnbroken(Decimal(n / 10), [Digit(n % 10)]);
    }
  }

  /** Free of line breaks. */
  predicate Unbroken(s: string) {
    forall i :: 0 <= i < |s| ==> s[i] != '\r' && s[i] != '\n'
  }

  function Concat(buffers: seq<string>): string {
    if buffers == [] then "" else Concat(buffers[..|buffers| - 1]) + buffers[|buffers| - 1]
  }

  // ----- the lines of a head

  function HeaderLine(h: Header): string {
    h.name + SEPARATOR + h.value
  }

  const LENGTH_NAME := "Content-Length"

  function LengthHeader(r: Response): Header {
    Header(LENGTH_NAME, Decimal(|r.content|))
  }

  /** The status line, the headers in order, and the length. */
  function HeadLines(r: Response): seq<string> {
    ["HTTP/1.0 " + Reason(r.status)] + LinesOf(r.headers) + [HeaderLine(LengthHeader(r))]
  }

  function LinesOf(headers: seq<Header>): seq<string> {
    if headers == [] then []
    else LinesOf(headers[..|headers| - 1]) + [HeaderLine(headers[|headers| - 1])]
  }

  function Lines(ls: seq<string>): string {
    if ls == [] then "" else ls[0] + CRLF + Lines(ls[1..])
  }

  function Wire(r: Response): string {
    Lines(HeadLines(r)) + CRLF + r.content
  }

  lemma {:induction false} LinesAppend(a: seq<string>, b: seq<string>)
    ensures Lines(a + b) == Lines(a) + Lines(b)
  {
    if a == [] {
      assert a + b == b;
    } else {
      LinesAppend(a[1..], b);
      assert (a + b)[1..] == a[1..] + b;
    }
  }

  lemma LinesSnoc(a: seq<string>, l: string)
    ensures Lines(a + [l]) == Lines(a) + l + CRLF
  {
    LinesAppend(a, [l]);
    assert Lines([l]) == l + CRLF + Lines([l][1..]);
  }

  lemma ConcatSnoc(bs: seq<string>, b: string)
    ensures Concat(bs + [b]) == Concat(bs) + b
  {
    assert (bs + [b])[..|bs|] == bs;
  }

  lemma ConcatLine(bs: seq<string>, h: Header)
    ensures Concat(bs + [h.name] + [SEPARATOR] + [h.value] + [CRLF]) == Concat(bs) + HeaderLine(h) + CRLF
  {
    ConcatSnoc(bs, h.name);
    ConcatSnoc(bs + [h.name], SEPARATOR);
    ConcatSnoc(bs + [h.name] + [SEPARATOR], h.value);
    ConcatSnoc(bs + [h.name] + [SEPARATOR] + [h.value], CRLF);
  }

  /** `to_buffers`: the buffers, in order, hold the bytes of the response. */
  method ToBuffers(r: Response) returns (buffers: seq<string>)
    ensures Concat(buffers) == Wire(r)
  {
    buffers := [];
    buffers := buffers + ["HTTP/1.0 " + Reason(r.status) + CRLF];
    ghost var first := ["HTTP/1.0 " + Reason(r.status)];
    ConcatSnoc([], "HTTP/1.0 " + Reason(r.status) + CRLF);
    LinesSnoc([], first[0]);
    assert [] + first == first && LinesOf(r.headers[..0]) == [] && first + [] == first;
    var i := 0;
    while i < |r.headers|
      invariant i <= |r.headers|
      invariant Concat(buffers) == Lines(first + LinesOf(r.headers[..i]))
    {
      var h := r.headers[i];
      ConcatLine(buffers, h);
      assert r.headers[..i + 1][..i] == r.headers[..i];
      LinesSnoc(first + LinesOf(r.headers[..i]), HeaderLine(h));
      assert first + LinesOf(r.headers[..i + 1]) == first + LinesOf(r.headers[..i]) + [HeaderLine(h)];
      buffers := buffers + [h.name] + [SEPARATOR] + [h.value] + [CRLF];
      i := i + 1;
    }
    assert r.headers[..i] == r.headers;
    ghost var head := first + LinesOf(r.headers);
    ConcatLine(buffers, LengthHeader(r));
    LinesSnoc(head, HeaderLine(LengthHeader(r)));
    buffers := buffers + [LENGTH_NAME] + [SEPARATOR] + [Decimal(|r.content|)] + [CRLF];
    ConcatSnoc(buffers, CRLF);
    ConcatSnoc(buffers + [CRLF], r.content);
    buffers := buffers + [CRLF] + [r.content];
  }

  // ----- where the head ends

  predicate IsLine(l: string) {
    l != "" && Unbroken(l)
  }

  predicate BlankAt(s: string, p: nat) {
    p + 4 <= |s| && s[p] == '\r' && s[p + 1] == '\n' && s[p + 2] == '\r' && s[p + 3] == '\n'
  }

  lemma BlankAfterLine(l: string, rest: string, p: nat)
    ensures BlankAt(l + CRLF + rest, |l| + 2 + p) <==> BlankAt(rest, p)
  {
    var s, d := l + CRLF + rest, |l| + 2;
    assert s[d..] == rest;
    assert forall k :: 0 <= k < |rest| ==> s[d + k] == rest[k];
  }

  lemma NoBlankInLine(l: string, rest: string, p: nat)
    requires IsLine(l) && p < |l| + 2 && rest != "" && rest[0] != '\r'
    ensures !BlankAt(l + CRLF + rest, p)
  {
    var s := l + CRLF + rest;
    if p < |l| {
      assert s[p] == l[p];
    } else {
      assert s[|l|] == '\r' && s[|l| + 1] == '\n' && s[|l| + 2] == rest[0];
    }
  }

  lemma LastLine(l: string, body: string)
    requires IsLine(l)
    ensures
      var s := l + CRLF + (CRLF + body);
      BlankAt(s, |l|) && forall p :: 0 <= p < |l| ==> !BlankAt(s, p)
  {
    var s := l + CRLF + (CRLF + body);
    assert s[|l|] == '\r' && s[|l| + 1] == '\n' && s[|l| + 2] == '\r' && s[|l| + 3] == '\n';
    forall p | 0 <= p < |l| ensures !BlankAt(s, p) {
      assert s[p] == l[p];
    }
  }

  lemma LinesFirst(ls: seq<string>, tail: string)
    requires ls != []
    ensures Lines(ls) + tail == ls[0] + CRLF + (Lines(ls[1..]) + tail)
  {
  }

  /** In lines, a blank line, and a body, the first empty line is the one after the lines. */
  lemma {:induction false} FirstBlank(ls: seq<string>, body: string)
    requires ls != [] && forall i :: 0 <= i < |ls| ==> IsLine(ls[i])
    ensures
      var s := Lines(ls) + (CRLF + body);
      var end := |Lines(ls)| - 2;
      end >= 0 && BlankAt(s, end) && forall p :: 0 <= p < end ==> !BlankAt(s, p)
  {
    var l, rest := ls[0], Lines(ls[1..]) + (CRLF + body);
    LinesFirst(ls, CRLF + body);
    if |ls| == 1 {
      LastLine(l, body);
      assert rest == CRLF + body;
    } else {
      var next := ls[1..];
      FirstBlank(next, body);
      LinesFirst(next, CRLF + body);
      assert next[0] == ls[1] && rest[0] == next[0][0] && next[0][0] in next[0];
      var end := |Lines(next)| - 2;
      BlankAfterLine(l, rest, end);
      forall p | 0 <= p < |l| + 2 + end ensures !BlankAt(l + CRLF + rest, p) {
        if p < |l| + 2 {
          NoBlankInLine(l, rest, p);
        } else {
          BlankAfterLine(l, rest, p - |l| - 2);
        }
      }
    }
  }

  ghost predicate UnbrokenHeaders(headers: seq<Header>) {
    forall i :: 0 <= i < |headers| ==> Unbroken(headers[i].name) && Unbroken(headers[i].value)
  }

  lemma {:induction false} HeaderLinesUnbroken(headers: seq<Header>)
    requires UnbrokenHeaders(headers)
    ensures |LinesOf(headers)| == |headers|
    ensures forall i :: 0 <= i < |headers| ==> IsLine(LinesOf(headers)[i])
  {
    if headers != [] {
      HeaderLinesUnbroken(headers[..|headers| - 1]);
      HeaderIsLine(headers[|headers| - 1]);
    }
  }

  lemma JoinUnbroken(a: string, b: string)
    ensures Unbroken(a + b) <==> Unbroken(a) && Unbroken(b)
  {
    assert forall i :: 0 <= i < |a| ==> (a + b)[i] == a[i];
    assert forall i :: 0 <= i < |b| ==> (a + b)[|a| + i] == b[i];
  }

  lemma SuccessUnbroken(status: nat)
    requires status < 300
    ensures Unbroken(Reason(status))
  {
    match status {
      case 200 => assert Unbroken("200 OK");
      case 201 => assert Unbroken("201 Created");
      case 202 => assert Unbroken("202 Accepted");
      case 204 => assert Unbroken("204 No Content");
      case _ => assert Unbroken("500 Internal Server Error");
    }
  }

  lemma RedirectionUnbroken(status: nat)
    requires 300 <= status < 400
    ensures Unbroken(Reason(status))
  {
    match status {
      case 300 => assert Unbroken("300 Multiple Choices");
      case 301 => assert Unbroken("301 Moved Permanently");
      case 302 => assert Unbroken("302 Moved Temporarily");
      case 304 => assert Unbroken("304 Not Modified");
      case _ => assert Unbroken("500 Internal Server Error");
    }
  }

  lemma ClientErrorUnbroken(status: nat)
    requires 400 <= status < 500
    ensures Unbroken(Reason(status))
  {
    match status {
      case 400 => assert Unbroken("400 Bad Request");
      case 401 => assert Unbroken("401 Unauthorized");
      case 403 => assert Unbroken("403 Forbidden");
      case 404 => assert Unbroken("404 Not Found");
      case _ => assert Unbroken("500 Internal Server Error");
    }
  }

  lemma ServerErrorUnbroken(status: nat)
    requires status >= 500
    ensures Unbroken(Reason(status))
  {
    match status {
      case 501 => assert Unbroken("501 Not Implemented");
      case 502 => assert Unbroken("502 Bad Gateway");
      case 503 => assert Unbroken("503 Service Unavailable");
      case _ => assert Unbroken("500 Internal Server Error");
    }
  }

  lemma ReasonUnbroken(status: nat)
    ensures Unbroken(Reason(status))
  {
    hide *;
    if status < 300 {
      SuccessUnbroken(status);
    } else if status < 400 {
      RedirectionUnbroken(status);
    } else if status < 500 {
      ClientErrorUnbroken(status);
    } else {
      ServerErrorUnbroken(status);
    }
  }

  lemma NamesUnbroken()
    ensures Unbroken(LENGTH_NAME) && Unbroken(SEPARATOR) && Unbroken("HTTP/1.0 ")
    ensures Unbroken("Content-Type") && Unbroken("text/html")
  {
  }

  lemma ReasonIsLine(status: nat)
    ensures IsLine("HTTP/1.0 " + Reason(status))
  {
    ReasonUnbroken(status);
    NamesUnbroken();
    JoinUnbroken("HTTP/1.0 ", Reason(status));
  }

  lemma HeaderIsLine(h: Header)
    requires Unbroken(h.name) && Unbroken(h.value)
    ensures IsLine(HeaderLine(h))
  {
    NamesUnbroken();
    JoinUnbroken(h.name, SEPARATOR);
    JoinUnbroken(h.name + SEPARATOR, h.value);
  }

  lemma LengthIsLine(r: Response)
    ensures IsLine(HeaderLine(LengthHeader(r)))
  {
    DecimalUnbroken(|r.content|);
    NamesUnbroken();
    HeaderIsLine(LengthHeader(r));
  }

  lemma HeadIsLines(r: Response)
    requires UnbrokenHeaders(r.headers)
    ensures forall i :: 0 <= i < |HeadLines(r)| ==> IsLine(HeadLines(r)[i])
  {
    HeaderLinesUnbroken(r.headers);
    ReasonIsLine(r.status);
    LengthIsLine(r);
    var ls := HeadLines(r);
    forall i | 0 <= i < |ls| ensures IsLine(ls[i]) {
      assert ls[i] == if i == 0 then "HTTP/1.0 " + Reason(r.status)
                      else if i <= |r.headers| then LinesOf(r.headers)[i - 1] else HeaderLine(LengthHeader(r));
    }
  }

  /** If no header holds a line break, the first empty line of the bytes ends the head: what
      follows it is the content, and the last line before it announces the content's length. */
  lemma Framing(r: Response)
    requires UnbrokenHeaders(r.headers)
    ensures
      var end := |Lines(HeadLines(r))| - 2;
      && end >= 0 && BlankAt(Wire(r), end) && (forall p :: 0 <= p < end ==> !BlankAt(Wire(r), p))
      && Wire(r)[end + 4..] == r.content
    ensures
      var ls := HeadLines(r);
      ls[|ls| - 1] == LENGTH_NAME + SEPARATOR + Decimal(|r.content|) && Number(Decimal(|r.content|)) == |r.content|
  {
    HeadIsLines(r);
    var ls := HeadLines(r);
    FirstBlank(ls, r.content);
    assert Wire(r) == Lines(ls) + (CRLF + r.content);
    DecimalRoundTrip(|r.content|);
  }

  // ----- the bytes as a client reads them

  /** The position of the first line break of `s`, or its length when there is none. */
  function LineEnd(s: string): (e: nat)
    ensures e <= |s|
  {
    if |s| < 2 then |s| else if s[0] == '\r' && s[1] == '\n' then 0 else 1 + LineEnd(s[1..])
  }

  /** The first `n` lines of `s`. */
  function ReadLines(s: string, n: nat): seq<string>
    decreases n
  {
    if n == 0 then [] else
      var e := LineEnd(s);
      [s[..e]] + ReadLines(if e + 2 <= |s| then s[e + 2..] else "", n - 1)
  }

  lemma {:induction false} LineEndAt(l: string, rest: string)
    requires Unbroken(l)
    ensures LineEnd(l + "\r\n" + rest) == |l|
  {
    var s := l + "\r\n" + rest;
    if l == "" {
      assert s[0] == '\r' && s[1] == '\n';
    } else {
      assert s[0] == l[0] && s[1..] == l[1..] + "\r\n" + rest;
      LineEndAt(l[1..], rest);
    }
  }

  lemma {:induction false} LinesRead(ls: seq<string>, tail: string)
    requires forall i :: 0 <= i < |ls| ==> Unbroken(ls[i])
    ensures ReadLines(Lines(ls) + tail, |ls|) == ls
  {
    if ls != [] {
      hide Unbroken, LineEnd;
      var rest := Lines(ls[1..]) + tail;
      LinesFirst(ls, tail);
      LineEndAt(ls[0], rest);
      LinesRead(ls[1..], tail);
      assert (ls[0] + "\r\n" + rest)[..|ls[0]|] == ls[0];
      assert (ls[0] + "\r\n" + rest)[|ls[0]| + 2..] == rest;
    }
  }

  lemma {:induction false} LinesOfAt(headers: seq<Header>, i: nat)
    requires i < |headers|
    ensures |LinesOf(headers)| == |headers| && LinesOf(headers)[i] == headers[i].name + ": " + headers[i].value
  {
    if |headers| > 1 {
      LinesOfAt(headers[..|headers| - 1], if i < |headers| - 1 then i else 0);
    }
  }

  /** A client that reads the bytes line by line finds the status line, every header as its
      name and value, in order, the length of the content, and an empty line. */
  lemma ClientReads(r: Response, i: nat)
    requires UnbrokenHeaders(r.headers) && i < |r.headers|
    ensures
      var n := |r.headers|;
      var ls := ReadLines(Wire(r), n + 2);
      && |ls| == n + 2
      && ls[0] == "HTTP/1.0 " + Reason(r.status)
      && ls[i + 1] == r.headers[i].name + ": " + r.headers[i].value
      && ls[n + 1] == "Content-Length: " + Decimal(|r.content|)
  {
    hide Lines, ReadLines, Reason, Decimal, LinesOf;
    HeadIsLines(r);
    LinesOfAt(r.headers, i);
    HeadersRead(r);
  }

  lemma HeadersRead(r: Response)
    requires UnbrokenHeaders(r.headers)
    ensures ReadLines(Wire(r), |HeadLines(r)|) == HeadLines(r)
  {
    hide Lines, ReadLines, HeadLines;
    HeadIsLines(r);
    LinesRead(HeadLines(r), "\r\n" + r.content);
    assert Wire(r) == Lines(HeadLines(r)) + ("\r\n" + r.content);
  }

  predicate Known(status: nat) {
    status in {200, 201, 202, 204, 300, 301, 302, 304, 400, 401, 403, 404, 500, 501, 502, 503}
  }

  lemma PhraseDigits(status: nat)
    ensures
      var d := Reason(status);
      100 * (d[0] as int - '0' as int) + 10 * (d[1] as int - '0' as int) + (d[2] as int - '0' as int) ==
        if Known(status) then status else 500
  {
  }

  /** The phrase of a known status begins with its number; any other status is sent as 500. */
  lemma PhraseNumber(status: nat)
    ensures Number(Reason(status)[..3]) == if Known(status) then status else 500
  {
    hide Reason, Number, Known;
    PhraseDigits(status);
    ThreeDigits(Reason(status)[..3]);
  }

  /** The phrases, as section 6.1.1 of RFC 1945 recommends them. */
  lemma SuccessPhrases()
    ensures Reason(200) == "200 OK" && Reason(201) == "201 Created"
    ensures Reason(202) == "202 Accepted" && Reason(204) == "204 No Content"
  {
  }

  lemma RedirectionPhrases()
    ensures Reason(300) == "300 Multiple Choices" && Reason(301) == "301 Moved Permanently"
    ensures Reason(302) == "302 Moved Temporarily" && Reason(304) == "304 Not Modified"
  {
  }

  lemma ClientErrorPhrases()
    ensures Reason(400) == "400 Bad Request" && Reason(401) == "401 Unauthorized"
    ensures Reason(403) == "403 Forbidden" && Reason(404) == "404 Not Found"
  {
  }

  lemma ServerErrorPhrases()
    ensures Reason(500) == "500 Internal Server Error" && Reason(501) == "501 Not Implemented"
    ensures Reason(502) == "502 Bad Gateway" && Reason(503) == "503 Service Unavailable"
  {
  }

  lemma ThreeDigits(d: string)
    requires |d| == 3
    ensures Number(d) == 100 * (d[0] as int - '0' as int) + 10 * (d[1] as int - '0' as int) + (d[2] as int - '0' as int)
  {
    var a, b := d[..1], d[..2];
    assert a[..0] == "" && b[..1] == a;
    assert Number(a) == a[0] as int - '0' as int;
    assert Number(b) == 10 * Number(a) + (b[1] as int - '0' as int);
  }

  // ----- stock responses

  /** The page of a status other than 200: what its title and its heading say. */
  datatype Texts = Texts(title: string, heading: string)

  function Markup(page: Texts): string {
    "<html>"
    + ("<head><title>" + page.title + "</title></head>")
    + ("<body><h1>" + page.heading + "</h1></body>")
    + "</html>"
  }

  /** The pages, one by one; an unknown status has that of 500. */
  function PageTexts(status: nat): Texts {
    match status
    case 201 => Texts("Created", "201 Created")
    case 202 => Texts("Accepted", "202 Accepted")
    case 204 => Texts("No Content", "204 Content")
    case 300 => Texts("Multiple Choices", "300 Multiple Choices")
    case 301 => Texts("Moved Permanently", "301 Moved Permanently")
    case 302 => Texts("Moved Temporarily", "302 Moved Temporarily")
    case 304 => Texts("Not Modified", "304 Not Modified")
    case 400 => Texts("Bad Request", "400 Bad Request")
    case 401 => Texts("Unauthorized", "401 Unauthorized")
    case 403 => Texts("Forbidden", "403 Forbidden")
    case 404 => Texts("Not Found", "404 Not Found")
    case 501 => Texts("Not Implemented", "501 Not Implemented")
    case 502 => Texts("Bad Gateway", "502 Bad Gateway")
    case 503 => Texts("Service Unavailable", "503 Service Unavailable")
    case _ => Texts("Internal Server Error", "500 Internal Server Error")
  }

  function StockContent(status: nat): string {
    if status == 200 then "" else Markup(PageTexts(status))
  }

  /** The page that the status line calls for: its phrase, and as the title the phrase
      without the number. */
  function DuePage(status: nat): string {
    Markup(Texts(Reason(status)[4..], Reason(status)))
  }

  lemma OtherTitle()
    ensures "500 Internal Server Error"[4..] == "Internal Server Error"
  {
  }

  lemma SuccessTitles(status: nat)
    requires 200 < status < 300
    ensures Reason(status)[4..] == PageTexts(status).title
  {
    match status {
      case 201 => assert "201 Created"[4..] == "Created";
      case 202 => assert "202 Accepted"[4..] == "Accepted";
      case 204 => assert "204 No Content"[4..] == "No Content";
      case _ => OtherTitle();
    }
  }

  lemma RedirectionTitles(status: nat)
    requires 300 <= status < 302
    ensures Reason(status)[4..] == PageTexts(status).title
  {
    match status {
      case 300 => assert "300 Multiple Choices"[4..] == "Multiple Choices";
      case 301 => assert "301 Moved Permanently"[4..] == "Moved Permanently";
      case _ => OtherTitle();
    }
  }

  lemma MoreRedirectionTitles(status: nat)
    requires 302 <= status < 400
    ensures Reason(status)[4..] == PageTexts(status).title
  {
    match status {
      case 302 => assert "302 Moved Temporarily"[4..] == "Moved Temporarily";
      case 304 => assert "304 Not Modified"[4..] == "Not Modified";
      case _ => OtherTitle();
    }
  }

  lemma ClientErrorTitles(status: nat)
    requires 400 <= status < 402
    ensures Reason(status)[4..] == PageTexts(status).title
  {
    match status {
      case 400 => assert "400 Bad Request"[4..] == "Bad Request";
      case 401 => assert "401 Unauthorized"[4..] == "Unauthorized";
      case _ => OtherTitle();
    }
  }

  lemma MoreClientErrorTitles(status: nat)
    requires 402 <= status < 500
    ensures Reason(status)[4..] == PageTexts(status).title
  {
    match status {
      case 403 => assert "403 Forbidden"[4..] == "Forbidden";
      case 404 => assert "404 Not Found"[4..] == "Not Found";
      case _ => OtherTitle();
    }
  }

  lemma ServerErrorTitles(status: nat)
    requires status >= 500 || status < 200
    ensures Reason(status)[4..] == PageTexts(status).title
  {
    match status {
      case 501 => assert "501 Not Implemented"[4..] == "Not Implemented";
      case 502 => assert "502 Bad Gateway"[4..] == "Bad Gateway";
      case 503 => assert "503 Service Unavailable"[4..] == "Service Unavailable";
      case _ => OtherTitle();
    }
  }

  lemma TitleIs(status: nat)
    requires status != 200
    ensures Reason(status)[4..] == PageTexts(status).title
  {
    hide Reason, PageTexts;
    if status < 200 || status >= 500 {
      ServerErrorTitles(status);
    } else if status < 300 {
      SuccessTitles(status);
    } else if status < 302 {
      RedirectionTitles(status);
    } else if status < 400 {
      MoreRedirectionTitles(status);
    } else if status < 402 {
      ClientErrorTitles(status);
    } else {
      MoreClientErrorTitles(status);
    }
  }

  lemma HeadingIs(status: nat)
    requires status != 200
    ensures status != 204 ==> PageTexts(status).heading == Reason(status)
    ensures status == 204 ==> |PageTexts(status).heading| != |Reason(status)|
  {
  }

  /** A page, written out. */
  lemma MarkupText(page: Texts)
    ensures Markup(page) == "<html><head><title>" + page.title + "</title></head><body><h1>" + page.heading + "</h1></body></html>"
  {
    assert "<html>" + "<head><title>" == "<html><head><title>";
    assert "</title></head>" + "<body><h1>" == "</title></head><body><h1>";
    assert "</h1></body>" + "</html>" == "</h1></body></html>";
    var whole := "<html><head><title>" + page.title + "</title></head><body><h1>" + page.heading + "</h1></body></html>";
    assert Markup(page) == ("<html>" + "<head><title>") + page.title + ("</title></head>" + "<body><h1>") + page.heading + ("</h1></body>" + "</html>");
  }

  /** The page for a request that finds no route, and for malformed bytes. */
  lemma ErrorPages()
    ensures StockContent(404) ==
              "<html><head><title>" + "Not Found" + "</title></head><body><h1>" + "404 Not Found" + "</h1></body></html>"
    ensures StockContent(400) ==
              "<html><head><title>" + "Bad Request" + "</title></head><body><h1>" + "400 Bad Request" + "</h1></body></html>"
  {
    hide Markup;
    MarkupText(PageTexts(404));
    MarkupText(PageTexts(400));
  }

  lemma MarkupLength(page: Texts)
    ensures |Markup(page)| == 63 + |page.title| + |page.heading|
  {
  }

  /** Every stock page but that of 200, which is empty, is the one the status line calls for,
      except for 204. */
  lemma StockPageIff(status: nat)
    ensures status != 200 ==> (StockContent(status) == DuePage(status) <==> status != 204)
  {
    hide Reason, PageTexts, Markup;
    if status != 200 {
      TitleIs(status);
      HeadingIs(status);
      MarkupLength(PageTexts(status));
      MarkupLength(Texts(Reason(status)[4..], Reason(status)));
    }
  }

  /** The page for 204 leaves out a word that its own title and the status line have. */
  lemma NoContentPage()
    ensures StockContent(204) == Markup(Texts("No Content", "204 Content"))
    ensures DuePage(204) == Markup(Texts("No Content", "204 No Content"))
    ensures StockContent(204) != DuePage(204)
  {
    hide Markup;
    SuccessTitles(204);
    StockPageIff(204);
  }

  function Stock(status: nat): Response {
    var content := StockContent(status);
    Response(status, [Header(LENGTH_NAME, Decimal(|content|)), Header("Content-Type", "text/html")], content)
  }

  /** `stock_response` */
  method StockResponse(status: nat) returns (r: Response)
    ensures r == Stock(status)
    ensures Number(r.headers[0].value) == |r.content|
    ensures UnbrokenHeaders(r.headers)
  {
    var content := StockContent(status);
    var headers := [Header("", ""), Header("", "")];
    headers := headers[0 := Header(LENGTH_NAME, Decimal(|content|))];
    headers := headers[1 := Header("Content-Type", "text/html")];
    r := Response(status, headers, content);
    DecimalRoundTrip(|content|);
    DecimalUnbroken(|content|);
    NamesUnbroken();
  }
}
