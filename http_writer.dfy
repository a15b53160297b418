// The response side: the header block of `write_basic_http_header_raw`
// (net/net-http-server.c:828-864) and the error page of
// `write_http_error_raw` (net/net-http-server.c:174-197), as byte strings.
// printf's "%d" is `Decimal`, "%.Ns" of a C string is `Printed`.
module HttpWriter {
  import opened HtsTypes
  import opened HttpReason
  import opened HttpDate
  import opened HttpHeader

  const CRLF: seq<byte> := [CR, LF]

  // The fixed texts of the header block.
  const HTTP_PREFIX: seq<PlainChar> := "HTTP/1.1 "
  const SERVER: seq<PlainChar> := "Server"
  const SERVER_NAME: seq<PlainChar> := "LulzMTProxy/1.1"
  const LULZ: seq<PlainChar> := "Lulz"
  const LULZ_VALUE: seq<PlainChar> := "kekv1.1"
  const DATE: seq<PlainChar> := "Date"
  const CONTENT_TYPE: seq<PlainChar> := "Content-Type"
  const TEXT_HTML: seq<PlainChar> := "text/html"
  const CONNECTION: seq<PlainChar> := "Connection"
  const KEEP_ALIVE: seq<PlainChar> := "keep-alive"
  const CLOSE: seq<PlainChar> := "close"
  const CONTENT_LENGTH: seq<PlainChar> := "Content-Length"

  // `error_text_pattern` around its two "%d %s".
  const PAGE_HEAD: string := "<html>\r\n<head><title>"
  const PAGE_MIDDLE: string := "</title></head>\r\n<body bgcolor=\"white\">\r\n"
    + "<a href=\"https://blackbox.team\">blackbox.team</a>\r\n<center><h1>"
  const PAGE_TAIL: string :=
    "</h1></center>\r\n<hr><center>LulzMTProxy/1.1</center>\r\n</body>\r\n</html>\r\n"

  /** A `const char *` argument that may be NULL. */
  datatype CText = Null | Text(bytes: seq<byte>)

  /** "%.Ns": the C string (up to its NUL) cut to at most `n` bytes. */
  function Printed(s: seq<byte>, n: nat): (r: seq<byte>)
    ensures |r| <= n && |r| <= |s|
    ensures forall i :: 0 <= i < |r| ==> r[i] == s[i] && r[i] != 0
  {
    var c := UpToNul(s);
    if |c| <= n then c else c[..n]
  }

  /** One header line: the name, ": ", the value and CR LF. */
  function Field(name: seq<PlainChar>, value: seq<byte>): seq<byte>
  {
    Ascii(name) + [COLON, SP] + value + CRLF
  }

  /** "HTTP/1.1 %d %s\r\n" with the code rewritten by the reason table. */
  function StatusLine(code: int): seq<byte>
  {
    var r := ReasonPhrase(code);
    Ascii(HTTP_PREFIX) + Decimal(r.code) + [SP] + Ascii(r.phrase) + CRLF
  }

  /** The text of "Content-Type": the argument, or "text/html" for NULL. */
  function ContentType(contentType: CText): seq<byte>
  {
    Printed(if contentType.Null? then Ascii(TEXT_HTML) else contentType.bytes, 256)
  }

  /** The lines of the header block before the Connection line. */
  function Preamble(code: int, date: seq<byte>, contentType: CText): seq<seq<byte>>
  {
    [ StatusLine(code),
      Field(SERVER, Ascii(SERVER_NAME)),
      Field(LULZ, Ascii(LULZ_VALUE)),
      Field(DATE, date),
      Field(CONTENT_TYPE, ContentType(contentType)) ]
  }

  function ConnectionValue(keepAlive: bool): seq<byte>
  {
    if keepAlive then Ascii(KEEP_ALIVE) else Ascii(CLOSE)
  }

  /** The Content-Length line, present only for a non-negative length. */
  function LengthLine(len: int): seq<byte>
  {
    if len >= 0 then Field(CONTENT_LENGTH, Decimal(len)) else []
  }

  /**
   * The header block for status `code`, date text `date` and body length
   * `len` (negative: no Content-Length), with the two free-form header
   * strings `extra` and `add` copied in between; it ends with an empty line.
   */
  function HeaderBlock(code: int, date: seq<byte>, len: int, add: seq<byte>,
                       contentType: CText, keepAlive: bool, extra: seq<byte>): seq<byte>
  {
    Join(Preamble(code, date, contentType)) + Field(CONNECTION, ConnectionValue(keepAlive))
    + Printed(extra, 1024) + Printed(add, 1024) + LengthLine(len) + CRLF
  }

  /** The version test of `write_basic_http_header_raw`: HTTP/0.9 gets no headers. */
  predicate WritesHeaders(httpVer: int)
  {
    httpVer >= HTTP_V10 || httpVer == 0
  }

  /**
   * Everything `write_basic_http_header_raw` appends, for a record with
   * version `httpVer` and flags `flags`; `extraGlobal` is the global
   * `extra_http_response_headers` (a NULL global prints like "").
   */
  function BasicHeader(httpVer: int, flags: QueryFlags, code: int, date: seq<byte>, len: int,
                       add: seq<byte>, contentType: CText, extraGlobal: seq<byte>): seq<byte>
  {
    if WritesHeaders(httpVer) then
      HeaderBlock(code, date, len, add, contentType, QF_KEEPALIVE in flags,
                  if QF_EXTRA_HEADERS in flags then extraGlobal else [])
    else []
  }

  /** The record's flags after the call: a written header clears `QF_EXTRA_HEADERS`. */
  function FlagsAfterHeader(httpVer: int, flags: QueryFlags): QueryFlags
  {
    if WritesHeaders(httpVer) then flags - {QF_EXTRA_HEADERS} else flags
  }

  /** `error_text_pattern` filled with the (rewritten) code and phrase, twice each. */
  function ErrorBody(code: int): seq<byte>
  {
    var r := ReasonPhrase(code);
    var status := Decimal(r.code) + [SP] + Ascii(r.phrase);
    Ascii(PAGE_HEAD) + status + Ascii(PAGE_MIDDLE) + status + Ascii(PAGE_TAIL)
  }


  /** Bytes and return value of `write_http_error_raw`. */
  datatype Written = Written(bytes: seq<byte>, result: int)

  /**
   * `write_http_error_raw(C, raw, code)` with the current date text `now`:
   * 204 gets a bare header block without Content-Length; any other code a
   * header block announcing the page, then the page itself (the page is
   * appended even when HTTP/0.9 suppresses the headers).
   */
  function ErrorResponse(httpVer: int, flags: QueryFlags, code: int, now: seq<byte>,
                         extraGlobal: seq<byte>): Written
  {
    if code == 204 then
      Written(BasicHeader(httpVer, flags, code, now, -1, [], Null, extraGlobal), 0)
    else
      var body := ErrorBody(code);
      Written(BasicHeader(httpVer, flags, ReasonPhrase(code).code, now, |body|, [], Null,
                          extraGlobal) + body, |body|)
  }

  // Properties of the writer.

  predicate NoLf(s: seq<byte>)
  {
    forall i :: 0 <= i < |s| ==> s[i] != LF
  }

  lemma PlainNoLf(s: seq<PlainChar>)
    ensures NoLf(Ascii(s))
  {
    PlainBytes(s);
  }

  /** `q` asks for the field `name`, up to case. */
  predicate Asks(q: seq<byte>, name: seq<PlainChar>)
  {
    |name| <= |q| && CaseAgree(q, Ascii(name), 0, |name|)
  }

  /** The date and content-type arguments hold no line feed. */
  predicate OneLine(date: seq<byte>, contentType: CText)
  {
    NoLf(date) && (contentType.Text? ==> NoLf(contentType.bytes))
  }

  /** `free` is made of whole lines none of which names `q[..n]`. */
  predicate FreeLines(free: seq<byte>, q: seq<byte>, n: nat, lines: seq<seq<byte>>)
    requires n <= |q|
  {
    free == Join(lines) && forall i {:trigger Skipped(lines[i], q, n)} :: 0 <= i < |lines| ==> Skipped(lines[i], q, n)
  }

  /** A value `get_http_header` returns whole: no line break, no blank at either edge. */
  predicate FieldText(v: seq<byte>)
  {
    && (forall i :: 0 <= i < |v| ==> v[i] != CR && v[i] != LF)
    && (|v| > 0 ==> !Blank(v[0]) && !Blank(v[|v| - 1]))
  }

  lemma PlainValue(s: seq<PlainChar>)
    requires |s| > 0 ==> s[0] != ' ' && s[|s| - 1] != ' '
    ensures FieldText(Ascii(s))
  {
    PlainBytes(s);
  }

  /**
   * The field `name: v` right after a run of lines that do not name it is
   * what a lookup of `name` finds.
   */
  lemma FieldAfter(h: seq<byte>, q: seq<byte>, p: nat, ls: seq<seq<byte>>,
                   name: seq<PlainChar>, v: seq<byte>)
    requires |name| <= |q| && CaseAgree(q, Ascii(name), 0, |name|)
    requires forall i {:trigger Skipped(ls[i], q, |name|)} :: 0 <= i < |ls| ==> Skipped(ls[i], q, |name|)
    requires FieldText(v)
    requires LineAt(h, p, Join(ls)) && LineAt(h, p + |Join(ls)|, Field(name, v))
    ensures Find(h, q, |name|, p) == Found(v)
  {
    var n := |name|;
    var m := p + |Join(ls)|;
    FieldLine(h, q, m, name, v);
    FindThrough(h, q, n, p, ls, Found(v));
  }

  lemma FieldLine(h: seq<byte>, q: seq<byte>, p: nat, name: seq<PlainChar>, v: seq<byte>)
    requires |name| <= |q| && CaseAgree(q, Ascii(name), 0, |name|)
    requires FieldText(v)
    requires LineAt(h, p, Field(name, v))
    ensures Find(h, q, |name|, p) == Found(v)
  {
    PlainBytes(name);
    FindField(h, q, p, Ascii(name), v);
  }

  /** A field line is one complete line whose name ends at its ':'. */
  lemma FieldShape(name: seq<PlainChar>, v: seq<byte>, q: seq<byte>, n: nat)
    requires NoLf(v) && n <= |q|
    ensures var l := Field(name, v);
      && CompleteLine(l) && NameEnd(l, 0) == |name| && l[|name|] == COLON
      && (n != |name| ==> !NamesField(l, q, n))
  {
    var l := Field(name, v);
    var a := Ascii(name);
    PlainBytes(name);
    assert forall i :: 0 <= i < |a| ==> l[i] == a[i];
    assert forall i :: |a| + 2 <= i < |a| + 2 + |v| ==> l[i] == v[i - |a| - 2];
    NameEndIs(l, 0, |name|);
  }

  /** The status line is one complete line without a ':', so it names no field. */
  lemma StatusLineShape(code: int, q: seq<byte>, n: nat)
    requires n <= |q|
    ensures CompleteLine(StatusLine(code)) && !NamesField(StatusLine(code), q, n)
  {
    var r := ReasonPhrase(code);
    var l := StatusLine(code);
    var d := Decimal(r.code);
    var a := Ascii(HTTP_PREFIX);
    var ph := Ascii(r.phrase);
    PlainBytes(HTTP_PREFIX);
    PlainBytes(r.phrase);
    assert l == a + d + [SP] + ph + CRLF;
    assert forall i :: 0 <= i < 9 ==> l[i] == a[i];
    assert forall i :: 9 <= i < 9 + |d| ==> l[i] == d[i - 9];
    assert forall i :: 10 + |d| <= i < 10 + |d| + |ph| ==> l[i] == ph[i - 10 - |d|];
    assert forall i :: 0 <= i < |l| - 1 ==> l[i] != COLON && l[i] != LF;
    NameEndIs(l, 0, |l| - 1);
  }

  /** The five lines, one by one, are all skipped. */
  lemma FiveSkipped(ls: seq<seq<byte>>, q: seq<byte>, n: nat)
    requires n <= |q| && |ls| == 5
    requires Skipped(ls[0], q, n) && Skipped(ls[1], q, n) && Skipped(ls[2], q, n)
    requires Skipped(ls[3], q, n) && Skipped(ls[4], q, n)
    ensures forall i {:trigger Skipped(ls[i], q, n)} :: 0 <= i < |ls| ==> Skipped(ls[i], q, n)
  {
  }

  /**
   * None of the first five lines names a field of 10 or 14 bytes
   * (Connection, Content-Length), given a date and a content type without
   * line feeds.
   */
  lemma PreambleSkips(code: int, date: seq<byte>, contentType: CText, q: seq<byte>, n: nat)
    requires n <= |q| && (n == 10 || n == 14)
    requires NoLf(date) && (contentType.Text? ==> NoLf(contentType.bytes))
    ensures var ls := Preamble(code, date, contentType);
      forall i {:trigger Skipped(ls[i], q, n)} :: 0 <= i < |ls| ==> Skipped(ls[i], q, n)
  {
    var ls := Preamble(code, date, contentType);
    StatusLineShape(code, q, n);
    assert Skipped(ls[0], q, n);
    PlainNoLf(SERVER_NAME);
    FieldShape(SERVER, Ascii(SERVER_NAME), q, n);
    assert Skipped(ls[1], q, n);
    PlainNoLf(LULZ_VALUE);
    FieldShape(LULZ, Ascii(LULZ_VALUE), q, n);
    assert Skipped(ls[2], q, n);
    FieldShape(DATE, date, q, n);
    assert Skipped(ls[3], q, n);
    var ct := ContentType(contentType);
    PlainNoLf(TEXT_HTML);
    assert NoLf(ct);
    FieldShape(CONTENT_TYPE, ct, q, n);
    assert Skipped(ls[4], q, n);
    FiveSkipped(ls, q, n);
  }

  /** Where the pieces of `a + b + c + d + e + f` sit. */
  lemma SixPieces(h: seq<byte>, a: seq<byte>, b: seq<byte>, c: seq<byte>,
                  d: seq<byte>, e: seq<byte>, f: seq<byte>)
    requires h == a + b + c + d + e + f
    ensures LineAt(h, 0, a) && LineAt(h, |a|, b) && LineAt(h, |a| + |b|, c + d)
    ensures LineAt(h, |a| + |b| + |c| + |d|, e) && LineAt(h, |a| + |b| + |c| + |d| + |e|, f)
    ensures |h| == |a| + |b| + |c| + |d| + |e| + |f|
  {
    assert LineAt(h, 0, h);
    LineAtConcat(h, 0, a + b + c + d + e, f);
    LineAtConcat(h, 0, a + b + c + d, e);
    LineAtConcat(h, 0, a + b + c, d);
    LineAtConcat(h, 0, a + b, c);
    LineAtConcat(h, 0, a, b);
    LineAtAppend(h, |a| + |b|, c, d);
  }

  lemma DecimalText(n: nat)
    ensures FieldText(Decimal(n))
  {
  }

  /** A lookup passes the lines `ls`, the line `c` and the lines `xs`. */
  lemma BeforeThrough(h: seq<byte>, q: seq<byte>, n: nat, ls: seq<seq<byte>>, c: seq<byte>,
                      xs: seq<seq<byte>>, r: Lookup)
    requires n <= |q|
    requires forall i {:trigger Skipped(ls[i], q, n)} :: 0 <= i < |ls| ==> Skipped(ls[i], q, n)
    requires Skipped(c, q, n)
    requires forall i {:trigger Skipped(xs[i], q, n)} :: 0 <= i < |xs| ==> Skipped(xs[i], q, n)
    requires LineAt(h, 0, Join(ls)) && LineAt(h, |Join(ls)|, c)
    requires LineAt(h, |Join(ls)| + |c|, Join(xs))
    requires Find(h, q, n, |Join(ls)| + |c| + |Join(xs)|) == r
    ensures Find(h, q, n, 0) == r
  {
    LineThenLines(h, q, n, |Join(ls)|, c, xs, r);
    FindThrough(h, q, n, 0, ls, r);
  }

  /** A lookup passes the line `c` and then the lines `xs`. */
  lemma LineThenLines(h: seq<byte>, q: seq<byte>, n: nat, p: nat, c: seq<byte>,
                      xs: seq<seq<byte>>, r: Lookup)
    requires n <= |q| && Skipped(c, q, n)
    requires forall i {:trigger Skipped(xs[i], q, n)} :: 0 <= i < |xs| ==> Skipped(xs[i], q, n)
    requires LineAt(h, p, c) && LineAt(h, p + |c|, Join(xs))
    requires Find(h, q, n, p + |c| + |Join(xs)|) == r
    ensures Find(h, q, n, p) == r
  {
    FindThrough(h, q, n, p + |c|, xs, r);
    FindThroughLine(h, q, n, p, c, r);
  }

  /** What a lookup of Content-Length should find for a body of `len` bytes. */
  function Announced(len: int): Lookup
  {
    if len >= 0 then Found(Decimal(len)) else NotFound
  }

  /**
   * From the start of the Content-Length line of `len` followed by the
   * final empty line, a lookup of Content-Length finds `len` exactly when it
   * is non-negative.
   */
  lemma LengthLineLookup(h: seq<byte>, q: seq<byte>, e: nat, len: int)
    requires 14 <= |q| && CaseAgree(q, Ascii(CONTENT_LENGTH), 0, 14)
    requires LineAt(h, e, LengthLine(len)) && LineAt(h, e + |LengthLine(len)|, CRLF)
    requires |h| == e + |LengthLine(len)| + 2
    ensures Find(h, q, 14, e) == Announced(len)
  {
    if len >= 0 {
      DecimalText(len);
      assert |CONTENT_LENGTH| == 14;
      FieldLine(h, q, e, CONTENT_LENGTH, Decimal(len));
    } else {
      FindAtEnd(h, q, 14, e);
    }
  }

  /** `LengthLineLookup` and `BeforeThrough` on a block of the writer's layout. */
  lemma LengthInBlock(h: seq<byte>, q: seq<byte>, ls: seq<seq<byte>>, c: seq<byte>,
                      x1: seq<byte>, x2: seq<byte>, xs: seq<seq<byte>>, len: int)
    requires 14 <= |q| && CaseAgree(q, Ascii(CONTENT_LENGTH), 0, 14)
    requires forall i {:trigger Skipped(ls[i], q, 14)} :: 0 <= i < |ls| ==> Skipped(ls[i], q, 14)
    requires Skipped(c, q, 14)
    requires forall i {:trigger Skipped(xs[i], q, 14)} :: 0 <= i < |xs| ==> Skipped(xs[i], q, 14)
    requires x1 + x2 == Join(xs)
    requires h == Join(ls) + c + x1 + x2 + LengthLine(len) + CRLF
    ensures Find(h, q, 14, 0) == Announced(len)
  {
    var pre := Join(ls) + c + x1 + x2;
    assert |pre| == |Join(ls)| + |c| + |Join(xs)|;
    TailLookup(h, q, pre, |pre|, len);
    HeadThrough(h, q, ls, c, x1, x2, xs, LengthLine(len), CRLF, Announced(len));
  }

  /** The Content-Length line and the empty line at the end of a block. */
  lemma TailLookup(h: seq<byte>, q: seq<byte>, pre: seq<byte>, e: nat, len: int)
    requires 14 <= |q| && CaseAgree(q, Ascii(CONTENT_LENGTH), 0, 14)
    requires h == pre + LengthLine(len) + CRLF && e == |pre|
    ensures Find(h, q, 14, e) == Announced(len)
  {
    SixPieces(h, pre, [], [], [], LengthLine(len), CRLF);
    LengthLineLookup(h, q, |pre|, len);
  }

  /** The lines before the Content-Length line of a block are passed. */
  lemma HeadThrough(h: seq<byte>, q: seq<byte>, ls: seq<seq<byte>>, c: seq<byte>,
                    x1: seq<byte>, x2: seq<byte>, xs: seq<seq<byte>>, y1: seq<byte>, y2: seq<byte>,
                    r: Lookup)
    requires 14 <= |q|
    requires forall i {:trigger Skipped(ls[i], q, 14)} :: 0 <= i < |ls| ==> Skipped(ls[i], q, 14)
    requires Skipped(c, q, 14)
    requires forall i {:trigger Skipped(xs[i], q, 14)} :: 0 <= i < |xs| ==> Skipped(xs[i], q, 14)
    requires x1 + x2 == Join(xs)
    requires h == Join(ls) + c + x1 + x2 + y1 + y2
    requires Find(h, q, 14, |Join(ls)| + |c| + |Join(xs)|) == r
    ensures Find(h, q, 14, 0) == r
  {
    SixPieces(h, Join(ls), c, x1, x2, y1, y2);
    BeforeThrough(h, q, 14, ls, c, xs, r);
  }

  /** `FieldAfter` on a block that starts with the lines `ls` and the field. */
  lemma FieldInBlock(h: seq<byte>, q: seq<byte>, ls: seq<seq<byte>>,
                     name: seq<PlainChar>, v: seq<byte>,
                     x1: seq<byte>, x2: seq<byte>, x3: seq<byte>, x4: seq<byte>)
    requires |name| <= |q| && CaseAgree(q, Ascii(name), 0, |name|)
    requires forall i {:trigger Skipped(ls[i], q, |name|)} :: 0 <= i < |ls| ==> Skipped(ls[i], q, |name|)
    requires FieldText(v)
    requires h == Join(ls) + Field(name, v) + x1 + x2 + x3 + x4
    ensures Find(h, q, |name|, 0) == Found(v)
  {
    SixPieces(h, Join(ls), Field(name, v), x1, x2, x3, x4);
    FieldAfter(h, q, 0, ls, name, v);
  }

  /**
   * The Connection header a client reads back is "keep-alive" exactly when
   * the record has `QF_KEEPALIVE`, and "close" otherwise.
   */
  lemma HeaderConnection(code: int, date: seq<byte>, len: int, add: seq<byte>,
                         contentType: CText, keepAlive: bool, extra: seq<byte>, q: seq<byte>)
    requires Asks(q, CONNECTION) && OneLine(date, contentType)
    ensures HeaderValue(HeaderBlock(code, date, len, add, contentType, keepAlive, extra), q, 10)
            == Found(if keepAlive then Ascii(KEEP_ALIVE) else Ascii(CLOSE))
  {
    var ls := Preamble(code, date, contentType);
    PreambleSkips(code, date, contentType, q, 10);
    PlainValue(KEEP_ALIVE);
    PlainValue(CLOSE);
    FieldInBlock(HeaderBlock(code, date, len, add, contentType, keepAlive, extra), q, ls,
                 CONNECTION, ConnectionValue(keepAlive),
                 Printed(extra, 1024), Printed(add, 1024), LengthLine(len), CRLF);
  }

  /**
   * The Content-Length header a client reads back is `len` when `len >= 0`
   * and absent otherwise, as long as the free-form header strings are
   * whole lines that do not name it themselves.
   */
  lemma HeaderContentLength(code: int, date: seq<byte>, len: int, add: seq<byte>,
                            contentType: CText, keepAlive: bool, extra: seq<byte>,
                            q: seq<byte>, extraLines: seq<seq<byte>>)
    requires Asks(q, CONTENT_LENGTH) && OneLine(date, contentType)
    requires FreeLines(Printed(extra, 1024) + Printed(add, 1024), q, 14, extraLines)
    ensures HeaderValue(HeaderBlock(code, date, len, add, contentType, keepAlive, extra), q, 14)
            == if len >= 0 then Found(Decimal(len)) else NotFound
  {
    var h := HeaderBlock(code, date, len, add, contentType, keepAlive, extra);
    var ls := Preamble(code, date, contentType);
    var c := Field(CONNECTION, ConnectionValue(keepAlive));
    PreambleSkips(code, date, contentType, q, 14);
    PlainValue(KEEP_ALIVE);
    PlainValue(CLOSE);
    FieldShape(CONNECTION, ConnectionValue(keepAlive), q, 14);
    LengthInBlock(h, q, ls, c, Printed(extra, 1024), Printed(add, 1024), extraLines, len);
  }

  /**
   * HTTP/0.9 gets no header bytes at all; version 0 and every version from
   * HTTP/1.0 on get a header block.
   */
  lemma HeaderGate(httpVer: int, flags: QueryFlags, code: int, date: seq<byte>, len: int,
                   add: seq<byte>, contentType: CText, extraGlobal: seq<byte>)
    ensures var b := BasicHeader(httpVer, flags, code, date, len, add, contentType, extraGlobal);
      && (|b| == 0 <==> !WritesHeaders(httpVer))
      && (httpVer == HTTP_V09 ==> |b| == 0)
      && (httpVer == 0 || httpVer == HTTP_V10 || httpVer == HTTP_V11 ==> |b| > 0)
  {
    if WritesHeaders(httpVer) {
      var ex := if QF_EXTRA_HEADERS in flags then extraGlobal else [];
      var keepAlive := QF_KEEPALIVE in flags;
      var h := HeaderBlock(code, date, len, add, contentType, keepAlive, ex);
      SixPieces(h, Join(Preamble(code, date, contentType)), Field(CONNECTION, ConnectionValue(keepAlive)),
                Printed(ex, 1024), Printed(add, 1024), LengthLine(len), CRLF);
    }
  }

  /**
   * Writing a header block clears `QF_EXTRA_HEADERS`; no call changes any
   * other flag.
   */
  lemma HeaderFlags(httpVer: int, flags: QueryFlags)
    ensures var after := FlagsAfterHeader(httpVer, flags);
      && after - {QF_EXTRA_HEADERS} == flags - {QF_EXTRA_HEADERS}
      && (QF_EXTRA_HEADERS in after <==> QF_EXTRA_HEADERS in flags && !WritesHeaders(httpVer))
  {
  }

  /**
   * The global extra headers go out at most once: after a header has been
   * written, the next one is the same whatever the global holds.
   */
  lemma ExtraHeadersOnce(httpVer: int, flags: QueryFlags, code: int, date: seq<byte>, len: int,
                         add: seq<byte>, contentType: CText, extraGlobal: seq<byte>)
    requires WritesHeaders(httpVer)
    ensures var after := FlagsAfterHeader(httpVer, flags);
      BasicHeader(httpVer, after, code, date, len, add, contentType, extraGlobal)
      == BasicHeader(httpVer, after, code, date, len, add, contentType, [])
  {
  }

  /**
   * The status line starts the block: "HTTP/1.1 ", three digits that read
   * back as the rewritten code, and a space.
   */
  lemma StatusCode(code: int, date: seq<byte>, len: int, add: seq<byte>,
                   contentType: CText, keepAlive: bool, extra: seq<byte>)
    ensures var b := HeaderBlock(code, date, len, add, contentType, keepAlive, extra);
      && 13 <= |b| && b[..9] == Ascii(HTTP_PREFIX) && b[12] == SP
      && (forall i :: 9 <= i < 12 ==> IsDigit(b[i]))
      && DigitsValue(b[9..12]) == ReasonPhrase(code).code
  {
    var b := HeaderBlock(code, date, len, add, contentType, keepAlive, extra);
    var ls := Preamble(code, date, contentType);
    SixPieces(b, Join(ls), Field(CONNECTION, ConnectionValue(keepAlive)),
              Printed(extra, 1024), Printed(add, 1024), LengthLine(len), CRLF);
    assert Join(ls) == ls[0] + Join(ls[1..]);
    LineAtConcat(b, 0, ls[0], Join(ls[1..]));
    StatusDigits(b, code);
  }

  lemma StatusDigits(b: seq<byte>, code: int)
    requires LineAt(b, 0, StatusLine(code))
    ensures && 13 <= |b| && b[..9] == Ascii(HTTP_PREFIX) && b[12] == SP
      && (forall i :: 9 <= i < 12 ==> IsDigit(b[i]))
      && DigitsValue(b[9..12]) == ReasonPhrase(code).code
  {
    var c := ReasonPhrase(code).code;
    var l := StatusLine(code);
    var d := Decimal(c);
    assert |d| == 3;
    assert l == Ascii(HTTP_PREFIX) + d + [SP] + Ascii(ReasonPhrase(code).phrase) + CRLF;
    assert b[..|l|] == l;
    assert b[..9] == l[..9] == Ascii(HTTP_PREFIX);
    assert b[9..12] == l[9..12] == d;
    DecimalValue(c);
  }

  /** The first status text of a page sits right after its head. */
  lemma StatusAfterHead(b: seq<byte>, head: seq<byte>, d: seq<byte>, sp: seq<byte>,
                        phrase: seq<byte>, middle: seq<byte>, tail: seq<byte>)
    requires b == head + (d + sp + phrase) + middle + (d + sp + phrase) + tail
    ensures |head| + |d| <= |b| && b[|head|..|head| + |d|] == d
  {
    assert b == head + (d + (sp + phrase + middle + (d + sp + phrase) + tail));
    assert b[|head|..][..|d|] == d;
  }

  /** The page carries the rewritten code as three digits at offset 21. */
  lemma ErrorPageCode(code: int)
    ensures var b := ErrorBody(code);
      && 24 <= |b| && (forall i :: 21 <= i < 24 ==> IsDigit(b[i]))
      && DigitsValue(b[21..24]) == ReasonPhrase(code).code
  {
    var r := ReasonPhrase(code);
    var d := Decimal(r.code);
    assert |Ascii(PAGE_HEAD)| == 21 && |d| == 3;
    StatusAfterHead(ErrorBody(code), Ascii(PAGE_HEAD), d, [SP], Ascii(r.phrase),
                    Ascii(PAGE_MIDDLE), Ascii(PAGE_TAIL));
    DecimalValue(r.code);
  }

  /**
   * An error page other than 204: the header part announces exactly the
   * length of the page that follows it, and that length is the result.
   */
  lemma ErrorPageLength(httpVer: int, flags: QueryFlags, code: int, now: seq<byte>,
                        extraGlobal: seq<byte>, q: seq<byte>, extraLines: seq<seq<byte>>)
    requires code != 204 && WritesHeaders(httpVer) && NoLf(now) && Asks(q, CONTENT_LENGTH)
    requires FreeLines(Printed(if QF_EXTRA_HEADERS in flags then extraGlobal else [], 1024)
                       + Printed([], 1024), q, 14, extraLines)
    ensures var w := ErrorResponse(httpVer, flags, code, now, extraGlobal);
      var header := BasicHeader(httpVer, flags, ReasonPhrase(code).code, now, w.result, [], Null,
                                extraGlobal);
      && w.result == |ErrorBody(code)|
      && w.bytes == header + ErrorBody(code)
      && HeaderValue(header, q, 14) == Found(Decimal(w.result))
  {
    var body := ErrorBody(code);
    HeaderContentLength(ReasonPhrase(code).code, now, |body|, [], Null, QF_KEEPALIVE in flags,
                        if QF_EXTRA_HEADERS in flags then extraGlobal else [], q, extraLines);
  }

  /**
   * 204 is answered with a header block alone (nothing for HTTP/0.9), with
   * no Content-Length, and the result is 0.
   */
  lemma NoContentResponse(httpVer: int, flags: QueryFlags, now: seq<byte>, extraGlobal: seq<byte>,
                          q: seq<byte>, extraLines: seq<seq<byte>>)
    requires NoLf(now) && Asks(q, CONTENT_LENGTH)
    requires FreeLines(Printed(if QF_EXTRA_HEADERS in flags then extraGlobal else [], 1024)
                       + Printed([], 1024), q, 14, extraLines)
    ensures var w := ErrorResponse(httpVer, flags, 204, now, extraGlobal);
      && w.result == 0
      && (WritesHeaders(httpVer) ==> HeaderValue(w.bytes, q, 14) == NotFound)
      && (!WritesHeaders(httpVer) ==> w.bytes == [])
  {
    if WritesHeaders(httpVer) {
      HeaderContentLength(204, now, -1, [], Null, QF_KEEPALIVE in flags,
                          if QF_EXTRA_HEADERS in flags then extraGlobal else [], q, extraLines);
    }
  }

  /** Under HTTP/0.9 an error is answered with the bare page. */
  lemma ErrorPageBare(flags: QueryFlags, code: int, now: seq<byte>, extraGlobal: seq<byte>)
    requires code != 204
    ensures ErrorResponse(HTTP_V09, flags, code, now, extraGlobal)
            == Written(ErrorBody(code), |ErrorBody(code)|)
  {
  }

  /** The page fits the 1024-byte buffer `write_http_error_raw` prints it into. */
  lemma ErrorBodyFits(code: int)
    ensures |ErrorBody(code)| < 1024
  {
    PhraseText(code);
  }

  lemma JoinFive(ls: seq<seq<byte>>)
    requires |ls| == 5
    ensures |Join(ls)| == |ls[0]| + |ls[1]| + |ls[2]| + |ls[3]| + |ls[4]|
  {
    assert Join(ls[4..]) == ls[4] + Join(ls[5..]);
    assert Join(ls[3..]) == ls[3] + Join(ls[4..]);
    assert Join(ls[2..]) == ls[2] + Join(ls[3..]);
    assert Join(ls[1..]) == ls[1] + Join(ls[2..]);
  }

  /**
   * With a 29-byte date, the part printed under the `B_SZ - 64` bound stays
   * below it (at most 2460 of 4032 bytes), so the assertion after the
   * `snprintf` holds.
   */
  lemma HeaderFits(code: int, date: seq<byte>, len: int, add: seq<byte>,
                   contentType: CText, keepAlive: bool, extra: seq<byte>)
    requires |date| == 29
    ensures |HeaderBlock(code, date, len, add, contentType, keepAlive, extra)|
            - |LengthLine(len)| - 2 <= 2460 < 4096 - 64
  {
    PhraseText(code);
    var ls := Preamble(code, date, contentType);
    JoinFive(ls);
  }

  /**
   * The block ends with an empty line: CR LF, right after the Content-Length
   * line when there is one.
   */
  lemma HeaderEnds(code: int, date: seq<byte>, len: int, add: seq<byte>,
                   contentType: CText, keepAlive: bool, extra: seq<byte>)
    ensures var b := HeaderBlock(code, date, len, add, contentType, keepAlive, extra);
      && 4 <= |b| && b[|b| - 2..] == CRLF
      && (len >= 0 || Printed(extra, 1024) + Printed(add, 1024) == []
          ==> b[|b| - 4..] == CRLF + CRLF)
  {
    EndsBlank(HeaderBlock(code, date, len, add, contentType, keepAlive, extra),
              Join(Preamble(code, date, contentType)),
              Field(CONNECTION, ConnectionValue(keepAlive)),
              Printed(extra, 1024), Printed(add, 1024), len);
  }

  lemma EndsBlank(h: seq<byte>, pre: seq<byte>, c: seq<byte>, x1: seq<byte>, x2: seq<byte>, len: int)
    requires h == pre + c + x1 + x2 + LengthLine(len) + CRLF
    requires |c| >= 2 && c[|c| - 2..] == CRLF
    ensures && 4 <= |h| && h[|h| - 2..] == CRLF
      && (len >= 0 || x1 + x2 == [] ==> h[|h| - 4..] == CRLF + CRLF)
  {
    SixPieces(h, pre, c, x1, x2, LengthLine(len), CRLF);
    if len >= 0 {
      var l := LengthLine(len);
      assert l[|l| - 2..] == CRLF;
      assert LineAt(h, |h| - 4, CRLF + CRLF) by {
        LineAtConcat(h, |pre| + |c| + |x1| + |x2|, l[..|l| - 2], CRLF);
        LineAtAppend(h, |h| - 4, CRLF, CRLF);
      }
    } else if x1 + x2 == [] {
      assert LineAt(h, |h| - 4, CRLF + CRLF) by {
        LineAtConcat(h, |pre|, c[..|c| - 2], CRLF);
        LineAtAppend(h, |h| - 4, CRLF, CRLF);
      }
    }
  }
}
