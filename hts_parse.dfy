// The header state machine of `hts_parse_execute`
// (net/net-http-server.c:241-551) as pure functions: one function per arm
// of the `switch`, each reading one contiguous block `blk` from position
// `p` and returning the updated record and position. An arm that falls
// through in the C code calls the next arm. `Step` runs one iteration of
// the inner loop, `RunBlock` the whole inner loop over one block.
module HtsParse {
  import opened HtsTypes
  import opened HtsRecord

  /** The record and the block position after an arm. */
  datatype At = At(d: Hts, p: nat)

  /** Largest body length the Content-Length loop can produce: 214748363 * 10 + 9. */
  const MAX_DATA_SIZE: int := 2147483639

  /** The guard of the Content-Length loop: `0x7fffffffL / 10`. */
  const DIGIT_LIMIT: int := 0x7fff_ffff / 10

  /** The byte classes of the scanning loops. */
  datatype Run = Token | Name | Blank(tabs: bool) | Text

  predicate Keeps(k: Run, b: byte)
  {
    match k
    case Token => TokenByte(b)
    case Name => NameByte(b)
    case Blank(tabs) => b == SP || (b == HT && tabs)
    case Text => b != CR && b != LF
  }

  /**
   * A scanning loop: from `p`, advance over bytes of class `k`, at most
   * `room` of them, and stop at the end of the block.
   */
  function Span(blk: seq<byte>, p: nat, room: int, k: Run): (q: nat)
    requires p <= |blk|
    ensures p <= q <= |blk|
    ensures q == p || q - p <= room
    ensures forall i :: p <= i < q ==> Keeps(k, blk[i])
    ensures q < |blk| && q - p < room ==> !Keeps(k, blk[q])
    decreases |blk| - p
  {
    if p == |blk| || room <= 0 || !Keeps(k, blk[p]) then p
    else Span(blk, p + 1, room - 1, k)
  }

  /** Where the loop of `htqp_readint` stops, the value it reached, and whether it stopped on the overflow guard. */
  datatype Digits = Digits(q: nat, value: int, overflow: bool)

  /** The loop of `htqp_readint` from accumulator `tt`. */
  function AccDigits(blk: seq<byte>, p: nat, tt: int): (r: Digits)
    requires p <= |blk|
    ensures p <= r.q <= |blk|
    ensures forall i :: p <= i < r.q ==> IsDigit(blk[i])
    ensures r.overflow ==> r.q < |blk| && IsDigit(blk[r.q]) && r.value >= DIGIT_LIMIT
    ensures !r.overflow ==> r.q == |blk| || !IsDigit(blk[r.q])
    ensures 0 <= tt <= MAX_DATA_SIZE ==> 0 <= r.value <= MAX_DATA_SIZE
    decreases |blk| - p
  {
    if p == |blk| || !IsDigit(blk[p]) then Digits(p, tt, false)
    else if tt >= DIGIT_LIMIT then Digits(p, tt, true)
    else AccDigits(blk, p + 1, tt * 10 + (blk[p] as int - 48))
  }

  // The literals the parser compares with.
  const GET: seq<byte> := Ascii("GET")
  const HEAD: seq<byte> := Ascii("HEAD")
  const POST: seq<byte> := Ascii("POST")
  const OPTIONS: seq<byte> := Ascii("OPTIONS")
  const HTTP_1_0: seq<byte> := Ascii("HTTP/1.0")
  const HTTP_1_1: seq<byte> := Ascii("HTTP/1.1")
  const HOST_NAME: seq<byte> := Ascii("host")
  const CONNECTION_NAME: seq<byte> := Ascii("connection")
  const CONTENT_LENGTH_NAME: seq<byte> := Ascii("content-length")
  const KEEP_ALIVE_VALUE: seq<byte> := Ascii("keep-alive")

  /** Mark the request bad and skip the rest of the line. */
  function Fail(d: Hts): Hts
  {
    d.(parseState := SkipToEoln, queryFlags := d.queryFlags + {QF_ERROR})
  }

  /** The method named by the first token, compared byte for byte (`memcmp`). */
  function MethodOf(w: Word, wlen: int): QueryType
  {
    if wlen == 3 && w[..3] == GET then Get
    else if wlen == 4 && w[..4] == HEAD then Head
    else if wlen == 4 && w[..4] == POST then Post
    else if wlen == 7 && w[..7] == OPTIONS then Options
    else Error
  }

  /** First word of the request line: the method. */
  function Method(d: Hts): Hts
  {
    var t := MethodOf(d.word, d.wlen);
    if t == Error then Fail(d.(queryType := Error)) else d.(queryType := t)
  }

  /** Second word: the URI, which must not be empty. */
  function Uri(d: Hts): Hts
  {
    var d1 := d.(uriOffset := d.headerSize, uriSize := d.wlen);
    if d.wlen == 0 then Fail(d1) else d1
  }

  /** Third word: the version; none at all is HTTP/0.9. */
  function Version(d: Hts): Hts
  {
    var d1 := d.(parseState := SkipSpcToEoln);
    if d.wlen == 0 then d1.(httpVer := HTTP_V09)
    else if d.wlen == 8 && d.word[..8] == HTTP_1_0 then d1.(httpVer := HTTP_V10)
    else if d.wlen == 8 && d.word[..8] == HTTP_1_1 then d1.(httpVer := HTTP_V11)
    else Fail(d1)
  }

  /** The value of a Host or Connection field. */
  function FieldValue(d: Hts): Hts
  {
    var d1 :=
      if d.wlen == 0 then d
      else if QF_HOST in d.queryFlags then d.(hostOffset := d.headerSize, hostSize := d.wlen)
      else if d.wlen == 10 && CaseEqN(d.word, KEEP_ALIVE_VALUE, 0, 10) then
        d.(queryFlags := d.queryFlags + {QF_KEEPALIVE})
      else d;
    d1.(queryFlags := d1.queryFlags - {QF_HOST, QF_CONNECTION}, parseState := SkipSpcToEoln)
  }

  /** The flags after a header name: which of the three known fields it names (`strncasecmp`). */
  function NameFlags(d: Hts): QueryFlags
  {
    if d.wlen == 4 && CaseEqN(d.word, HOST_NAME, 0, 4) then d.queryFlags + {QF_HOST}
    else if d.wlen == 10 && CaseEqN(d.word, CONNECTION_NAME, 0, 10) then d.queryFlags + {QF_CONNECTION}
    else if d.wlen == 14 && CaseEqN(d.word, CONTENT_LENGTH_NAME, 0, 14) then d.queryFlags + {QF_DATASIZE}
    else d.queryFlags - {QF_HOST, QF_DATASIZE, QF_CONNECTION}
  }

  /**
   * Measure of the inner loop: every arm either consumes a byte or moves to
   * a state of smaller rank. The two request-line states alternate while
   * `query_words` climbs to 3.
   */
  function Rank(d: Hts): nat
  {
    var left := if d.queryWords >= 3 then 0 else if d.queryWords <= 0 then 3 else 3 - d.queryWords;
    match d.parseState
    case Done => 0
    case Closed => 0
    case Fatal => 1
    case WantLastLf => 2
    case SkipToEoln => 3
    case ReadToColon => 4
    case Eoln => 4
    case WantLf => 4
    case LineStart => 5
    case SkipSpcToEoln => 5
    case ReadInt => 6
    case ReadToSpace => 8 + 2 * left
    case SkipSpc => 9 + 2 * left
    case Start => 16
  }

  /**
   * Position of each case in the `switch`: a case only falls through to a
   * later one, which is what makes the fall-through chains terminate.
   */
  function Order(s: ParseState): nat
  {
    match s
    case Start => 0
    case ReadToSpace => 1
    case SkipSpc => 2
    case SkipSpcToEoln => 2
    case ReadToColon => 3
    case ReadInt => 4
    case SkipToEoln => 5
    case Eoln => 6
    case WantLf => 7
    case LineStart => 8
    case WantLastLf => 9
    case Done => 10
    case Fatal => 11
    case Closed => 12
  }

  /**
   * The cases that begin with their own end-of-block test, and so may be
   * entered, by fall-through, with the block used up.
   */
  predicate Enterable(d: Hts, blk: seq<byte>, p: nat)
  {
    && p <= |blk| && d.parseState != Closed
    && (p == |blk| ==> d.parseState in {Eoln, WantLf, LineStart, Done})
  }

  /**
   * The `switch` on `parse_state`: one iteration of the inner loop, entered
   * from the loop head or by a fall-through from an earlier case.
   */
  function Step(d: Hts, blk: seq<byte>, p: nat): At
    requires Enterable(d, blk, p)
    decreases 12 - Order(d.parseState), 1
  {
    match d.parseState
    case Start => StartArm(d, blk, p)
    case ReadToSpace => ReadToSpaceArm(d, blk, p)
    case SkipSpc => SkipSpcArm(d, blk, p)
    case SkipSpcToEoln => SkipSpcArm(d, blk, p)
    case ReadToColon => ReadToColonArm(d, blk, p)
    case ReadInt => ReadIntArm(d, blk, p)
    case SkipToEoln => SkipToEolnArm(d, blk, p)
    case Eoln => EolnArm(d, blk, p)
    case WantLf => WantLfArm(d, blk, p)
    case LineStart => LineStartArm(d, blk, p)
    case WantLastLf => WantLastLfArm(d, blk, p)
    case Done => At(d, p)
    case Fatal => FatalArm(d, p)
  }

  /** `htqp_start`: reset the record, then fall through to `htqp_readtospace`. */
  function StartArm(d: Hts, blk: seq<byte>, p: nat): At
    requires p < |blk| && d.parseState == Start
    decreases 12 - Order(d.parseState), 0
  {
    Step(Reset(d), blk, p)
  }

  /** `htqp_readtospace`: a request-line word, or the value of Host or Connection. */
  function ReadToSpaceArm(d: Hts, blk: seq<byte>, p: nat): At
    requires p < |blk| && d.parseState == ReadToSpace
  {
    var q := Span(blk, p, |blk| - p, Token);
    var d1 := d.(word := Stored(d.word, d.wlen, blk[p..q]), wlen := d.wlen + (q - p));
    if d1.wlen > 4096 then At(d1.(parseState := Fatal), q)
    else if q == |blk| then At(d1, q)
    else At(WordEnd(d1), q)
  }

  /**
   * A token of `htqp_readtospace` has ended: act on it by its position in
   * the request line (or as a field value), then count its bytes.
   */
  function WordEnd(d: Hts): Hts
  {
    var d2 := d.(parseState := SkipSpc, queryWords := d.queryWords + 1);
    var d3 :=
      if d2.queryWords == 1 then Method(d2)
      else if d2.queryWords == 2 then Uri(d2)
      else if d2.queryWords == 3 then Version(d2)
      else FieldValue(d2);
    d3.(headerSize := d3.headerSize + d3.wlen)
  }

  /**
   * `htqp_skipspc` and `htqp_skipspctoeoln`: skip blanks (tabs only in header
   * lines), never letting the header reach its limit, then decide what the
   * next token is.
   */
  function SkipSpcArm(d: Hts, blk: seq<byte>, p: nat): At
    requires p < |blk| && (d.parseState == SkipSpc || d.parseState == SkipSpcToEoln)
  {
    var q := Span(blk, p, MAX_HTTP_HEADER_SIZE - d.headerSize, Blank(d.queryWords >= 8));
    var d1 := d.(headerSize := d.headerSize + (q - p));
    if d1.headerSize >= MAX_HTTP_HEADER_SIZE then At(d1.(parseState := Fatal), q)
    else if q == |blk| then At(d1, q)
    else At(BlankEnd(d1), q)
  }

  /**
   * The blanks have ended: the line ends, the next request-line word
   * starts, or a field value starts, read as a number for Content-Length
   * (a second one is an error), as a token for Host and Connection, and
   * skipped otherwise.
   */
  function BlankEnd(d: Hts): Hts
  {
    if d.parseState == SkipSpcToEoln then d.(parseState := Eoln)
    else if d.queryWords < 3 then d.(wlen := 0, parseState := ReadToSpace)
    else if QF_DATASIZE in d.queryFlags then
      if d.dataSize != -1 then Fail(d)
      else d.(parseState := ReadInt, dataSize := 0)
    else if QF_HOST in d.queryFlags || QF_CONNECTION in d.queryFlags then d.(wlen := 0, parseState := ReadToSpace)
    else d.(parseState := SkipToEoln)
  }

  /** `htqp_readtocolon`: a header name up to its colon. */
  function ReadToColonArm(d: Hts, blk: seq<byte>, p: nat): At
    requires p < |blk| && d.parseState == ReadToColon
  {
    var q := Span(blk, p, |blk| - p, Name);
    var d1 := d.(word := Stored(d.word, d.wlen, blk[p..q]), wlen := d.wlen + (q - p));
    if d1.wlen > 4096 then At(d1.(parseState := Fatal), q)
    else if q == |blk| then At(d1, q)
    else if blk[q] != COLON then At(Fail(d1.(headerSize := d1.headerSize + d1.wlen)), q)
    else
      At(d1.(queryFlags := NameFlags(d1), headerSize := d1.headerSize + d1.wlen + 1,
             parseState := SkipSpc), q + 1)
  }

  /** `htqp_readint`: the digits of Content-Length. */
  function ReadIntArm(d: Hts, blk: seq<byte>, p: nat): At
    requires p < |blk| && d.parseState == ReadInt
  {
    var a := AccDigits(blk, p, d.dataSize);
    var flags1 := if a.q > p then d.queryFlags - {QF_DATASIZE} else d.queryFlags;
    var d1 :=
      if a.overflow then d.(queryFlags := flags1 + {QF_ERROR}, parseState := SkipToEoln)
      else d.(queryFlags := flags1);
    var d2 := d1.(dataSize := a.value, headerSize := d.headerSize + (a.q - p));
    if a.q == |blk| then At(d2, a.q)
    else if QF_DATASIZE in d2.queryFlags then At(Fail(d2), a.q)
    else At(d2.(parseState := SkipSpcToEoln), a.q)
  }

  /** `htqp_skiptoeoln`: skip to the end of the line, within the header limit. */
  function SkipToEolnArm(d: Hts, blk: seq<byte>, p: nat): At
    requires p < |blk| && d.parseState == SkipToEoln
    decreases 12 - Order(d.parseState), 0
  {
    var q := Span(blk, p, MAX_HTTP_HEADER_SIZE - d.headerSize, Text);
    var d1 := d.(headerSize := d.headerSize + (q - p));
    if d1.headerSize >= MAX_HTTP_HEADER_SIZE then At(d1.(parseState := Fatal), q)
    else if q == |blk| then At(d1, q)
    else Step(d1.(parseState := Eoln), blk, q)
  }

  /** `htqp_eoln`: an optional carriage return, then fall through to `htqp_wantlf`. */
  function EolnArm(d: Hts, blk: seq<byte>, p: nat): At
    requires p <= |blk| && d.parseState == Eoln
    decreases 12 - Order(d.parseState), 0
  {
    if p == |blk| then At(d, p)
    else if blk[p] == CR then Step(d.(headerSize := d.headerSize + 1, parseState := WantLf), blk, p + 1)
    else Step(d.(parseState := WantLf), blk, p)
  }

  /**
   * `htqp_wantlf`: the line feed after a line. The request line ends here:
   * `query_words` jumps to 8, and a bad request line is fatal. HTTP/0.9 has
   * no header lines.
   */
  function WantLfArm(d: Hts, blk: seq<byte>, p: nat): At
    requires p <= |blk| && d.parseState == WantLf
    decreases 12 - Order(d.parseState), 0
  {
    if p == |blk| then At(d, p)
    else
      var w := d.queryWords + 1;
      var d1 := d.(queryWords := if w < 8 then 8 else w);
      if w < 8 && QF_ERROR in d1.queryFlags then At(d1.(parseState := Fatal), p)
      else if d1.httpVer <= HTTP_V09 then At(d1.(parseState := WantLastLf), p)
      else if blk[p] != LF then At(Fail(d1), p)
      else Step(d1.(headerSize := d1.headerSize + 1, parseState := LineStart), blk, p + 1)
  }

  /** `htqp_linestart`: an empty line ends the header, anything else starts a field name. */
  function LineStartArm(d: Hts, blk: seq<byte>, p: nat): At
    requires p <= |blk| && d.parseState == LineStart
  {
    if p == |blk| then At(d, p)
    else
      var d1 := if d.firstLineSize == 0 then d.(firstLineSize := d.headerSize) else d;
      if blk[p] == CR then At(d1.(headerSize := d1.headerSize + 1, parseState := WantLastLf), p + 1)
      else if blk[p] == LF then At(d1.(parseState := WantLastLf), p)
      else if QF_ERROR in d1.queryFlags then At(d1.(parseState := SkipToEoln), p)
      else At(d1.(wlen := 0, parseState := ReadToColon), p)
  }

  /** `htqp_wantlastlf`: the line feed of the empty line ends the header. */
  function WantLastLfArm(d: Hts, blk: seq<byte>, p: nat): At
    requires p < |blk| && d.parseState == WantLastLf
  {
    if blk[p] != LF then At(d.(parseState := Fatal), p)
    else
      var d1 := d.(headerSize := d.headerSize + 1);
      var d2 := if d1.firstLineSize == 0 then d1.(firstLineSize := d1.headerSize) else d1;
      At(d2.(parseState := Done), p + 1)
  }

  /** `htqp_fatal`: the request is bad and parsing of it is over. */
  function FatalArm(d: Hts, p: nat): At
    requires d.parseState == Fatal
  {
    At(d.(queryFlags := d.queryFlags + {QF_ERROR}, parseState := Done), p)
  }

  /** An arm stays in the block, never closes, and consumes a byte or lowers the rank. */
  predicate Moves(d: Hts, r: At, blk: seq<byte>, p: nat)
  {
    p <= r.p <= |blk| && r.d.parseState != Closed && (r.p > p || Rank(r.d) < Rank(d))
  }

  lemma ReadToSpaceMoves(d: Hts, blk: seq<byte>, p: nat)
    requires p < |blk| && d.parseState == ReadToSpace
    ensures Moves(d, ReadToSpaceArm(d, blk, p), blk, p)
  {
  }

  lemma StartMoves(d: Hts, blk: seq<byte>, p: nat)
    requires p < |blk| && d.parseState == Start
    ensures Moves(d, StartArm(d, blk, p), blk, p)
  {
    assert Step(Reset(d), blk, p) == ReadToSpaceArm(Reset(d), blk, p);
    ReadToSpaceMoves(Reset(d), blk, p);
  }

  lemma SkipSpcMoves(d: Hts, blk: seq<byte>, p: nat)
    requires p < |blk| && (d.parseState == SkipSpc || d.parseState == SkipSpcToEoln)
    ensures Moves(d, SkipSpcArm(d, blk, p), blk, p)
  {
  }

  lemma ReadToColonMoves(d: Hts, blk: seq<byte>, p: nat)
    requires p < |blk| && d.parseState == ReadToColon
    ensures Moves(d, ReadToColonArm(d, blk, p), blk, p)
  {
  }

  lemma ReadIntMoves(d: Hts, blk: seq<byte>, p: nat)
    requires p < |blk| && d.parseState == ReadInt
    ensures Moves(d, ReadIntArm(d, blk, p), blk, p)
  {
  }

  /**
   * The end-of-line cases, entered by fall-through: they stay in the block,
   * and at a line end they consume a byte or reach a state below
   * `htqp_skiptoeoln`.
   */
  lemma LineStartMoves(d: Hts, blk: seq<byte>, p: nat)
    requires p <= |blk| && d.parseState == LineStart
    ensures var r := LineStartArm(d, blk, p);
      p <= r.p <= |blk| && r.d.parseState != Closed && (r.p > p || r.p == |blk| || Rank(r.d) < 5)
  {
  }

  lemma WantLfMoves(d: Hts, blk: seq<byte>, p: nat)
    requires p <= |blk| && d.parseState == WantLf
    ensures var r := WantLfArm(d, blk, p);
      && p <= r.p <= |blk| && r.d.parseState != Closed
      && (r.p > p || r.p == |blk| || Rank(r.d) < 4)
      && (p < |blk| && blk[p] == LF ==> r.p > p || Rank(r.d) < 3)
  {
    if p < |blk| {
      var w := d.queryWords + 1;
      var d1 := d.(queryWords := if w < 8 then 8 else w);
      if !(w < 8 && QF_ERROR in d1.queryFlags) && d1.httpVer > HTTP_V09 && blk[p] == LF {
        LineStartMoves(d1.(headerSize := d1.headerSize + 1, parseState := LineStart), blk, p + 1);
      }
    }
  }

  lemma EolnMoves(d: Hts, blk: seq<byte>, p: nat)
    requires p <= |blk| && d.parseState == Eoln
    ensures var r := EolnArm(d, blk, p);
      && p <= r.p <= |blk| && r.d.parseState != Closed
      && (r.p > p || r.p == |blk| || Rank(r.d) < 4)
      && (p < |blk| && (blk[p] == CR || blk[p] == LF) ==> r.p > p || Rank(r.d) < 3)
  {
    if p < |blk| {
      if blk[p] == CR {
        WantLfMoves(d.(headerSize := d.headerSize + 1, parseState := WantLf), blk, p + 1);
      } else {
        WantLfMoves(d.(parseState := WantLf), blk, p);
      }
    }
  }

  lemma SkipToEolnMoves(d: Hts, blk: seq<byte>, p: nat)
    requires p < |blk| && d.parseState == SkipToEoln
    ensures Moves(d, SkipToEolnArm(d, blk, p), blk, p)
  {
    var q := Span(blk, p, MAX_HTTP_HEADER_SIZE - d.headerSize, Text);
    var d1 := d.(headerSize := d.headerSize + (q - p));
    if d1.headerSize < MAX_HTTP_HEADER_SIZE && q < |blk| {
      EolnMoves(d1.(parseState := Eoln), blk, q);
    }
  }

  lemma StepMoves(d: Hts, blk: seq<byte>, p: nat)
    requires p < |blk| && d.parseState != Done && d.parseState != Closed
    ensures Moves(d, Step(d, blk, p), blk, p)
  {
    match d.parseState
    case Start => StartMoves(d, blk, p);
    case ReadToSpace => ReadToSpaceMoves(d, blk, p);
    case SkipSpc => SkipSpcMoves(d, blk, p);
    case SkipSpcToEoln => SkipSpcMoves(d, blk, p);
    case ReadToColon => ReadToColonMoves(d, blk, p);
    case ReadInt => ReadIntMoves(d, blk, p);
    case SkipToEoln => SkipToEolnMoves(d, blk, p);
    case Eoln => EolnMoves(d, blk, p);
    case WantLf => WantLfMoves(d, blk, p);
    case LineStart => LineStartMoves(d, blk, p);
    case WantLastLf =>
    case Fatal =>
  }

  /**
   * The inner loop over one block: run arms until the block is used up or
   * the header is complete.
   */
  function RunBlock(d: Hts, blk: seq<byte>, p: nat): (r: At)
    requires p <= |blk| && d.parseState != Closed
    ensures p <= r.p <= |blk| && r.d.parseState != Closed
    ensures r.p == |blk| || r.d.parseState == Done
    decreases |blk| - p, Rank(d)
  {
    if p == |blk| || d.parseState == Done then At(d, p)
    else
      var s := Step(d, blk, p);
      StepMoves(d, blk, p);
      RunBlock(s.d, blk, s.p)
  }
}
