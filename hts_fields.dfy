// What the word handlers of the parser decide about the tokens they are
// given (net/net-http-server.c:260-358, 395-435): the request line's method,
// URI and version, the three header names the parser knows, the
// keep-alive value, and the value of Content-Length.
//
// A token `tok` is what `htqp_readtospace` or `htqp_readtocolon` read,
// however many blocks it spanned: `wlen` counts all of it and the buffer
// holds its first 15 bytes (`StoredSplit`, `StoredToken`).
module HtsFields {
  import opened HtsTypes
  import opened HtsRecord
  import opened HtsParse
  import opened HtsInvariant

  /** The record holds token `tok`, stored into buffer `w` from its start. */
  predicate Holds(d: Hts, w: Word, tok: seq<byte>)
  {
    d.word == Stored(w, 0, tok) && d.wlen == |tok|
  }

  /** The buffer's first `n` bytes are the token when it has exactly `n <= 15` bytes. */
  lemma HeldPrefix(d: Hts, w: Word, tok: seq<byte>, n: nat)
    requires Holds(d, w, tok) && n <= 15 && |tok| == n
    ensures d.word[..n] == tok
  {
    StoredToken(w, tok);
  }

  /**
   * The method is recognised only when the first token is exactly GET,
   * HEAD, POST or OPTIONS, byte for byte (upper case); any other token
   * marks the request as an error.
   */
  lemma MethodExact(d: Hts, w: Word, tok: seq<byte>)
    requires Holds(d, w, tok)
    ensures var t := Method(d).queryType;
      && (t == Get <==> tok == GET) && (t == Head <==> tok == HEAD)
      && (t == Post <==> tok == POST) && (t == Options <==> tok == OPTIONS)
      && (t.IsMethod() <==> tok in {GET, HEAD, POST, OPTIONS})
      && (Bad(Method(d)) <==> Bad(d) || !t.IsMethod())
  {
    assert HEAD[0] != POST[0];
    if |tok| <= 7 {
      HeldPrefix(d, w, tok, |tok|);
    }
  }

  /**
   * The URI is the token that starts `header_size` bytes into the request,
   * and an empty one marks the request as an error.
   */
  lemma UriRequired(d: Hts, used: int)
    requires d.parseState == ReadToSpace && Inv(d, used)
    ensures Uri(d).uriOffset == used - d.wlen && Uri(d).uriSize == d.wlen
    ensures Bad(Uri(d)) <==> Bad(d) || d.wlen == 0
  {
  }

  /**
   * The version token must be empty (HTTP/0.9), HTTP/1.0 or HTTP/1.1,
   * byte for byte; anything else marks the request as an error.
   */
  lemma VersionExact(d: Hts, w: Word, tok: seq<byte>)
    requires Holds(d, w, tok)
    ensures var v := Version(d);
      && (v.httpVer == HTTP_V10 && !Bad(v) <==> tok == HTTP_1_0 && !Bad(d))
      && (v.httpVer == HTTP_V11 && !Bad(v) <==> tok == HTTP_1_1 && !Bad(d))
      && (tok == [] ==> v.httpVer == HTTP_V09)
      && (Bad(v) <==> Bad(d) || tok !in {[], HTTP_1_0, HTTP_1_1})
  {
    assert HTTP_1_0[7] != HTTP_1_1[7];
    if |tok| == 8 {
      HeldPrefix(d, w, tok, 8);
    }
  }

  /** A header name: every byte passes the name test, so none is NUL. */
  predicate NameToken(tok: seq<byte>)
  {
    forall i :: 0 <= i < |tok| ==> NameByte(tok[i])
  }

  /** A field name equal up to case to `name`, at exactly its length. */
  predicate Names(tok: seq<byte>, name: seq<byte>)
  {
    |tok| == |name| && CaseAgree(tok, name, 0, |tok|)
  }

  /** `strncasecmp` on the buffer decides equality up to case of the held token. */
  lemma HeldCase(d: Hts, w: Word, tok: seq<byte>, name: seq<byte>)
    requires Holds(d, w, tok) && |tok| == |name| <= 15
    requires forall i :: 0 <= i < |tok| ==> tok[i] != 0
    ensures CaseEqN(d.word, name, 0, |tok|) <==> Names(tok, name)
  {
    StoredToken(w, tok);
    CaseEqNNoNul(d.word, name, 0, |tok|);
    assert CaseAgree(d.word, name, 0, |tok|) <==> CaseAgree(tok, name, 0, |tok|);
  }

  /**
   * Header names are matched up to case and only at their exact length:
   * Host, Connection and Content-Length each raise their flag; any other
   * name clears all three. No other flag changes.
   */
  lemma NameMatch(d: Hts, w: Word, tok: seq<byte>)
    requires Holds(d, w, tok) && NameToken(tok)
    ensures var f := NameFlags(d);
      && (Names(tok, HOST_NAME) ==> f == d.queryFlags + {QF_HOST})
      && (Names(tok, CONNECTION_NAME) ==> f == d.queryFlags + {QF_CONNECTION})
      && (Names(tok, CONTENT_LENGTH_NAME) ==> f == d.queryFlags + {QF_DATASIZE})
      && (!Names(tok, HOST_NAME) && !Names(tok, CONNECTION_NAME) && !Names(tok, CONTENT_LENGTH_NAME) ==>
            f == d.queryFlags - {QF_HOST, QF_DATASIZE, QF_CONNECTION})
  {
    forall i | 0 <= i < |tok|
      ensures tok[i] != 0
    {
      ByteClasses(tok[i]);
    }
    if |tok| == 4 {
      HeldCase(d, w, tok, HOST_NAME);
    } else if |tok| == 10 {
      HeldCase(d, w, tok, CONNECTION_NAME);
    } else if |tok| == 14 {
      HeldCase(d, w, tok, CONTENT_LENGTH_NAME);
    }
  }

  /** A value token: every byte passes the token test, so none is NUL. */
  predicate ValueToken(tok: seq<byte>)
  {
    forall i :: 0 <= i < |tok| ==> TokenByte(tok[i])
  }

  /**
   * The value of a Connection field turns keep-alive on exactly when it is
   * "keep-alive" up to case; the value of a Host field is recorded by
   * offset and length. Either way the field's flag is cleared.
   */
  lemma FieldValueMeaning(d: Hts, w: Word, tok: seq<byte>)
    requires Holds(d, w, tok) && ValueToken(tok)
    ensures var v := FieldValue(d);
      && (QF_HOST !in d.queryFlags ==>
            (QF_KEEPALIVE in v.queryFlags <==> QF_KEEPALIVE in d.queryFlags || Names(tok, KEEP_ALIVE_VALUE)))
      && (QF_HOST in d.queryFlags && tok != [] ==> v.hostOffset == d.headerSize && v.hostSize == |tok|)
      && QF_HOST !in v.queryFlags && QF_CONNECTION !in v.queryFlags
      && v.queryFlags - {QF_HOST, QF_CONNECTION, QF_KEEPALIVE} == d.queryFlags - {QF_HOST, QF_CONNECTION, QF_KEEPALIVE}
  {
    forall i | 0 <= i < |tok|
      ensures tok[i] != 0
    {
      ByteClasses(tok[i]);
    }
    if |tok| == 10 {
      HeldCase(d, w, tok, KEEP_ALIVE_VALUE);
    }
  }

  /** 10 to the power `n`. */
  function Pow10(n: nat): (r: nat)
    ensures r >= 1
  {
    if n == 0 then 1 else 10 * Pow10(n - 1)
  }

  /** The value of digits read after a leading digit `c`. */
  lemma {:induction false} DigitsValueCons(c: byte, s: seq<byte>)
    requires IsDigit(c) && forall i :: 0 <= i < |s| ==> IsDigit(s[i])
    ensures DigitsValue([c] + s) == (c as int - 48) * Pow10(|s|) + DigitsValue(s)
    decreases |s|
  {
    if s != [] {
      var t := s[..|s| - 1];
      var last := s[|s| - 1] as int - 48;
      DigitsValueCons(c, t);
      assert ([c] + s)[..|s|] == [c] + t;
      assert DigitsValue([c] + s) == DigitsValue([c] + t) * 10 + last;
      assert DigitsValue(s) == DigitsValue(t) * 10 + last;
      assert Pow10(|s|) == 10 * Pow10(|t|);
      Distrib(c as int - 48, Pow10(|t|), Pow10(|s|), DigitsValue(t), last,
              DigitsValue([c] + t), DigitsValue([c] + s), DigitsValue(s));
    } else {
      assert ([c] + s)[..0] == [];
    }
  }

  /**
   * The Content-Length loop computes the decimal value of the digits it
   * passes, continuing the value `tt` carried over from earlier blocks.
   */
  lemma {:induction false} AccDigitsValue(blk: seq<byte>, p: nat, tt: int)
    requires p <= |blk| && 0 <= tt
    ensures var r := AccDigits(blk, p, tt);
      r.value == tt * Pow10(r.q - p) + DigitsValue(blk[p..r.q])
    decreases |blk| - p
  {
    var r := AccDigits(blk, p, tt);
    if p == |blk| || !IsDigit(blk[p]) || tt >= DIGIT_LIMIT {
      assert blk[p..r.q] == [];
    } else {
      AccDigitsValue(blk, p + 1, tt * 10 + (blk[p] as int - 48));
      AccDigitsStep(blk, p, tt);
    }
  }

  /** The inductive step of `AccDigitsValue`: one more digit is read. */
  lemma AccDigitsStep(blk: seq<byte>, p: nat, tt: int)
    requires p < |blk| && IsDigit(blk[p]) && 0 <= tt < DIGIT_LIMIT
    requires var tt1 := tt * 10 + (blk[p] as int - 48);
      var r := AccDigits(blk, p + 1, tt1);
      r.value == tt1 * Pow10(r.q - (p + 1)) + DigitsValue(blk[p + 1..r.q])
    ensures var r := AccDigits(blk, p, tt);
      r.value == tt * Pow10(r.q - p) + DigitsValue(blk[p..r.q])
  {
    var c := blk[p];
    var tt1 := tt * 10 + (c as int - 48);
    var r := AccDigits(blk, p + 1, tt1);
    assert AccDigits(blk, p, tt) == r;
    var s := blk[p + 1..r.q];
    assert DigitsValue(blk[p..r.q]) == (c as int - 48) * Pow10(r.q - (p + 1)) + DigitsValue(s) by {
      DigitsValueCons(c, s);
      assert blk[p..r.q] == [c] + s;
    }
    assert Pow10(r.q - p) == 10 * Pow10(r.q - (p + 1));
    Shift(tt, c as int - 48, tt1, Pow10(r.q - (p + 1)), Pow10(r.q - p), DigitsValue(s),
          DigitsValue(blk[p..r.q]), r.value);
  }

  /** Appending a digit `last` to a value that has `a` in front. */
  lemma Distrib(a: int, q: int, q10: int, b: int, last: int, x: int, y: int, z: int)
    requires q10 == 10 * q && x == a * q + b && y == x * 10 + last && z == b * 10 + last
    ensures y == a * q10 + z
  {
    assert (a * q) * 10 == a * (10 * q);
  }

  /** Moving the leading digit `c` from the accumulator into the digits. */
  lemma Shift(tt: int, c: int, tt1: int, q: int, q10: int, rest: int, digits: int, value: int)
    requires tt1 == tt * 10 + c && q10 == 10 * q
    requires digits == c * q + rest && value == tt1 * q + rest
    ensures value == tt * q10 + digits
  {
    assert (tt * 10 + c) * q == (tt * 10) * q + c * q;
    assert (tt * 10) * q == tt * (10 * q);
  }

  /**
   * Content-Length errors: a value that starts with no digit, or whose
   * digits would take the accumulator past `0x7fffffff / 10`, marks the
   * request as an error; otherwise the body length is the value read so far.
   */
  lemma ContentLengthValue(d: Hts, blk: seq<byte>, p: nat)
    requires p < |blk| && d.parseState == ReadInt && 0 <= d.dataSize <= MAX_DATA_SIZE
    requires QF_DATASIZE in d.queryFlags
    ensures var r := ReadIntArm(d, blk, p);
      var a := AccDigits(blk, p, d.dataSize);
      && (a.overflow || !IsDigit(blk[p]) ==> Bad(r.d))
      && (!a.overflow ==> r.d.dataSize == d.dataSize * Pow10(a.q - p) + DigitsValue(blk[p..a.q]))
      && 0 <= r.d.dataSize < 0x8000_0000
  {
    AccDigitsValue(blk, p, d.dataSize);
  }

  /**
   * The token limit: a request-line word, field value or field name goes
   * fatal exactly when the bytes counted in `wlen` pass 4096, whether or not
   * the token has ended in this block.
   */
  lemma TokenLimit(d: Hts, blk: seq<byte>, p: nat)
    requires p < |blk| && (d.parseState == ReadToSpace || d.parseState == ReadToColon)
    ensures var k := if d.parseState == ReadToSpace then Token else Name;
      var q := Span(blk, p, |blk| - p, k);
      var r := if d.parseState == ReadToSpace then ReadToSpaceArm(d, blk, p) else ReadToColonArm(d, blk, p);
      r.d.parseState == Fatal <==> d.wlen + (q - p) > 4096
  {
  }

  /**
   * The header limit: skipping blanks goes fatal exactly when `header_size`
   * reaches 16384, and skipping to the end of a line goes fatal when it does.
   */
  lemma HeaderLimit(d: Hts, blk: seq<byte>, p: nat)
    requires p < |blk|
    requires d.parseState == SkipSpc || d.parseState == SkipSpcToEoln || d.parseState == SkipToEoln
    ensures var k := if d.parseState == SkipToEoln then Text else Blank(d.queryWords >= 8);
      var q := Span(blk, p, MAX_HTTP_HEADER_SIZE - d.headerSize, k);
      && (d.parseState != SkipToEoln ==>
            (SkipSpcArm(d, blk, p).d.parseState == Fatal <==> d.headerSize + (q - p) >= MAX_HTTP_HEADER_SIZE))
      && (d.parseState == SkipToEoln ==>
            (SkipToEolnArm(d, blk, p).d.parseState == Fatal <==>
               || d.headerSize + (q - p) >= MAX_HTTP_HEADER_SIZE
               || (&& q < |blk| && !(blk[q] == CR && q + 1 == |blk|)
                   && d.queryWords + 1 < 8 && Bad(d))))
  {
    if d.parseState == SkipToEoln {
      var q := Span(blk, p, MAX_HTTP_HEADER_SIZE - d.headerSize, Text);
      var d1 := d.(headerSize := d.headerSize + (q - p));
      if d1.headerSize < MAX_HTTP_HEADER_SIZE && q < |blk| {
        EolnStep(d1.(parseState := Eoln), blk, q);
      }
    }
  }

  /**
   * The end of a line (`htqp_eoln` falling through to `htqp_wantlf`): it is
   * fatal only for a request line already marked bad, unless a lone CR ends
   * the block; in a header line of HTTP/1.x anything but LF or CR LF marks
   * the request bad, and nothing else does.
   */
  lemma EolnStep(d: Hts, blk: seq<byte>, e: nat)
    requires d.parseState == Eoln && e < |blk|
    ensures var r := Step(d, blk, e);
      && (r.d.parseState == Fatal <==>
            !(blk[e] == CR && e + 1 == |blk|) && d.queryWords + 1 < 8 && Bad(d))
      && (d.queryWords >= 8 && d.httpVer > HTTP_V09 && e + 1 < |blk| ==>
            (Bad(r.d) <==> Bad(d) || !(blk[e] == LF || (blk[e] == CR && blk[e + 1] == LF))))
  {
    var f := if blk[e] == CR then d.(headerSize := d.headerSize + 1, parseState := WantLf)
      else d.(parseState := WantLf);
    var g := if blk[e] == CR then e + 1 else e;
    assert Step(d, blk, e) == Step(f, blk, g);
    assert Step(f, blk, g) == WantLfArm(f, blk, g);
    if g < |blk| {
      var w := f.queryWords + 1;
      var f1 := f.(queryWords := if w < 8 then 8 else w);
      if !(w < 8 && QF_ERROR in f1.queryFlags) && f1.httpVer > HTTP_V09 && blk[g] == LF {
        var l := f1.(headerSize := f1.headerSize + 1, parseState := LineStart);
        assert Step(f, blk, g) == Step(l, blk, g + 1);
        assert Step(l, blk, g + 1) == LineStartArm(l, blk, g + 1);
      }
    }
  }

  /** A scanning loop with room to spare stops at the first byte it does not keep. */
  lemma SpanTo(blk: seq<byte>, p: nat, n: nat, room: int, k: Run)
    requires p + n < |blk| && n < room
    requires forall i :: p <= i < p + n ==> Keeps(k, blk[i])
    requires !Keeps(k, blk[p + n])
    ensures Span(blk, p, room, k) == p + n
  {
  }

  /**
   * The name Content-Length (any case) and its colon: `QF_DATASIZE` is
   * raised, the name and colon are counted in `header_size`, and the blanks
   * before the value come next.
   */
  lemma ContentLengthName(d: Hts, blk: seq<byte>, p: nat, n: nat) returns (x: Hts, j: nat)
    requires d.parseState == ReadToColon && d.wlen == 0
    requires p + n < |blk| && n <= 4096
    requires NameToken(blk[p..p + n]) && Names(blk[p..p + n], CONTENT_LENGTH_NAME)
    requires blk[p + n] == COLON
    ensures Step(d, blk, p) == At(x, j)
    ensures j == p + n + 1 && x.parseState == SkipSpc
    ensures x.queryFlags == d.queryFlags + {QF_DATASIZE}
    ensures x.headerSize == d.headerSize + n + 1
    ensures x.queryWords == d.queryWords && x.dataSize == d.dataSize
  {
    var tok := blk[p..p + n];
    forall i | p <= i < p + n
      ensures Keeps(Name, blk[i])
    {
      assert blk[i] == tok[i - p];
    }
    ByteClasses(COLON);
    SpanTo(blk, p, n, |blk| - p, Name);
    var d1 := d.(word := Stored(d.word, d.wlen, blk[p..p + n]), wlen := d.wlen + n);
    assert Holds(d1, d.word, tok);
    NameMatch(d1, d.word, tok);
    assert Step(d, blk, p) == ReadToColonArm(d, blk, p);
    x, j := Step(d, blk, p).d, Step(d, blk, p).p;
  }

  /**
   * A second Content-Length field: at the first byte of a Content-Length
   * value after its blanks, the request is marked bad exactly when an
   * earlier Content-Length has already set `data_size` (it starts at -1);
   * the first one goes on to read digits from 0.
   */
  lemma SecondContentLength(d: Hts, blk: seq<byte>, p: nat, m: nat)
    requires d.parseState == SkipSpc && QF_DATASIZE in d.queryFlags && d.queryWords >= 8
    requires p + m < |blk|
    requires forall i :: p <= i < p + m ==> blk[i] == SP || blk[i] == HT
    requires blk[p + m] != SP && blk[p + m] != HT
    requires d.headerSize + m < MAX_HTTP_HEADER_SIZE
    ensures var r := Step(d, blk, p);
      && r.p == p + m
      && (Bad(r.d) <==> Bad(d) || d.dataSize != -1)
      && (d.dataSize != -1 ==> r.d.parseState == SkipToEoln)
      && (d.dataSize == -1 ==> r.d.parseState == ReadInt && r.d.dataSize == 0)
  {
    SpanTo(blk, p, m, MAX_HTTP_HEADER_SIZE - d.headerSize, Blank(true));
    assert Step(d, blk, p) == SkipSpcArm(d, blk, p);
  }

  /**
   * The digits of Content-Length end before the end of the block: the flag
   * `QF_DATASIZE` is cleared once a digit is read, and the rest of the line
   * goes to `htqp_skipspctoeoln` without marking the request.
   */
  lemma DigitsEnd(d: Hts, blk: seq<byte>, p: nat, n: nat) returns (x: Hts, j: nat)
    requires d.parseState == ReadInt && 0 <= d.dataSize
    requires 0 < n && p + n < |blk|
    requires forall i :: p <= i < p + n ==> IsDigit(blk[i])
    requires !IsDigit(blk[p + n]) && !AccDigits(blk, p, d.dataSize).overflow
    ensures Step(d, blk, p) == At(x, j)
    ensures j == p + n && x.parseState == SkipSpcToEoln
    ensures x.queryFlags == d.queryFlags - {QF_DATASIZE}
    ensures x.headerSize == d.headerSize + n && x.dataSize == AccDigits(blk, p, d.dataSize).value
    ensures x.queryWords == d.queryWords && x.httpVer == d.httpVer
  {
    assert Step(d, blk, p) == ReadIntArm(d, blk, p);
    x, j := Step(d, blk, p).d, Step(d, blk, p).p;
  }

  /**
   * Bytes after the digits of Content-Length: after any blanks the line
   * must end with LF or CR LF; any other byte marks the request bad through
   * `htqp_skipspctoeoln` and `htqp_wantlf`.
   */
  lemma TrailingGarbage(d: Hts, blk: seq<byte>, p: nat, m: nat)
    requires d.parseState == SkipSpcToEoln && d.queryWords >= 8 && d.httpVer > HTTP_V09
    requires p + m + 1 < |blk|
    requires forall i :: p <= i < p + m ==> blk[i] == SP || blk[i] == HT
    requires blk[p + m] != SP && blk[p + m] != HT
    requires d.headerSize + m < MAX_HTTP_HEADER_SIZE
    ensures var s1 := Step(d, blk, p);
      var s2 := Step(s1.d, blk, s1.p);
      var e := p + m;
      && s1.d.parseState == Eoln && s1.p == e
      && (Bad(s2.d) <==> Bad(d) || !(blk[e] == LF || (blk[e] == CR && blk[e + 1] == LF)))
  {
    var x, j := BlanksToEoln(d, blk, p, m);
    EolnStep(x, blk, j);
  }

  /** The blanks before the end of a line are skipped and counted. */
  lemma BlanksToEoln(d: Hts, blk: seq<byte>, p: nat, m: nat) returns (x: Hts, j: nat)
    requires d.parseState == SkipSpcToEoln && d.queryWords >= 8
    requires p + m < |blk|
    requires forall i :: p <= i < p + m ==> blk[i] == SP || blk[i] == HT
    requires blk[p + m] != SP && blk[p + m] != HT
    requires d.headerSize + m < MAX_HTTP_HEADER_SIZE
    ensures Step(d, blk, p) == At(x, j)
    ensures j == p + m && x == d.(headerSize := d.headerSize + m, parseState := Eoln)
  {
    SpanTo(blk, p, m, MAX_HTTP_HEADER_SIZE - d.headerSize, Blank(true));
    assert Step(d, blk, p) == SkipSpcArm(d, blk, p);
    x, j := Step(d, blk, p).d, Step(d, blk, p).p;
  }

  /**
   * `htqp_fatal` with a byte left in the block: the request is marked bad
   * and its header is over, so it is answered with 400 and never dispatched.
   */
  lemma FatalMarks(d: Hts, blk: seq<byte>, p: nat)
    requires p < |blk| && d.parseState == Fatal
    ensures var r := RunBlock(d, blk, p);
      r.d.parseState == Done && QF_ERROR in r.d.queryFlags && r.p == p
      && r.d == d.(queryFlags := d.queryFlags + {QF_ERROR}, parseState := Done)
  {
  }
}
