// What every arm of the header state machine preserves
// (net/net-http-server.c:241-551): the byte accounting of `header_size`,
// the validity of the request line unless the request is already marked
// bad, the bound on the Content-Length value, and the token offsets. An
// error mark, once set, is never cleared while the header is parsed.
module HtsInvariant {
  import opened HtsTypes
  import opened HtsRecord
  import opened HtsParse

  /** The request is marked bad. */
  predicate Bad(d: Hts) { QF_ERROR in d.queryFlags }

  /** A supported protocol version. */
  predicate KnownVersion(v: int) { v == HTTP_V09 || v == HTTP_V10 || v == HTTP_V11 }

  /** The URI and Host value lie within the bytes counted so far. */
  predicate Offsets(d: Hts)
  {
    && 0 <= d.uriOffset && 0 <= d.uriSize && d.uriOffset + d.uriSize <= d.headerSize
    && 0 <= d.hostOffset && 0 <= d.hostSize && d.hostOffset + d.hostSize <= d.headerSize
  }

  /**
   * What holds in every state once a request has started: `header_size`
   * counts at most the `used` bytes consumed for it, the Content-Length
   * value is in range, and each word of the request line read so far is
   * valid unless the request is marked bad.
   */
  predicate Common(d: Hts, used: int)
  {
    && 0 <= d.headerSize <= used && 0 <= d.wlen && 0 <= d.queryWords
    && -1 <= d.dataSize <= MAX_DATA_SIZE
    && Offsets(d)
    && (d.queryWords >= 1 ==> d.queryType.IsMethod() || Bad(d))
    && (d.queryWords >= 2 ==> d.uriSize > 0 || Bad(d))
    && (d.queryWords >= 3 ==> KnownVersion(d.httpVer) || Bad(d))
  }

  /**
   * What each state adds: in the middle of a token its bytes are counted in
   * `wlen`, otherwise `header_size` counts every byte (except after a fatal
   * error); header states come after the request line; a value is read as
   * a token only for Host or Connection (the assertion at
   * net/net-http-server.c:314); the line of a request line shorter than
   * three words ends only with the error mark.
   */
  predicate InState(d: Hts, used: int)
  {
    match d.parseState
    case Start => used == 0
    case ReadToSpace =>
      d.headerSize + d.wlen == used && (d.queryWords >= 3 ==> QF_HOST in d.queryFlags || QF_CONNECTION in d.queryFlags)
    case ReadToColon => d.headerSize + d.wlen == used && d.queryWords >= 3
    case SkipSpc => d.headerSize == used
    case SkipSpcToEoln => d.headerSize == used && d.queryWords >= 3
    case ReadInt => d.headerSize == used && d.queryWords >= 3 && d.dataSize >= 0
    case SkipToEoln => d.headerSize == used && (d.queryWords < 3 ==> Bad(d))
    case Eoln => d.headerSize == used && (d.queryWords < 3 ==> Bad(d))
    case WantLf => d.headerSize == used && (d.queryWords < 3 ==> Bad(d))
    case LineStart => d.headerSize == used && d.queryWords >= 3
    case WantLastLf => d.headerSize == used && d.queryWords >= 3
    case Done => Bad(d) || (d.headerSize == used > 0 && d.queryWords >= 3)
    case Fatal => true
    case Closed => false
  }

  /** The parser's invariant after `used` bytes of the request. */
  predicate Inv(d: Hts, used: int)
  {
    InState(d, used) && (d.parseState != Start ==> Common(d, used))
  }

  /**
   * What an arm guarantees: it moves forward, keeps the invariant over the
   * bytes it consumed, and never clears the error mark.
   */
  predicate Preserves(d: Hts, used: int, r: At, p: nat)
  {
    p <= r.p && Inv(r.d, used + (r.p - p)) && (Bad(d) ==> Bad(r.d))
  }

  lemma ResetInv(d: Hts)
    ensures Inv(Reset(d), 0)
  {
  }

  lemma MethodInv(d: Hts, used: int)
    requires d.parseState == ReadToSpace && Inv(d, used) && d.queryWords == 0
    ensures Preserves(d, used, At(WordEnd(d), 0), 0)
  {
  }

  lemma UriInv(d: Hts, used: int)
    requires d.parseState == ReadToSpace && Inv(d, used) && d.queryWords == 1
    ensures Preserves(d, used, At(WordEnd(d), 0), 0)
  {
  }

  lemma VersionInv(d: Hts, used: int)
    requires d.parseState == ReadToSpace && Inv(d, used) && d.queryWords == 2
    ensures Preserves(d, used, At(WordEnd(d), 0), 0)
  {
  }

  lemma FieldValueInv(d: Hts, used: int)
    requires d.parseState == ReadToSpace && Inv(d, used) && d.queryWords >= 3
    ensures Preserves(d, used, At(WordEnd(d), 0), 0)
  {
  }

  /** The end of a token keeps the invariant without consuming a byte. */
  lemma WordEndInv(d: Hts, used: int)
    requires d.parseState == ReadToSpace && Inv(d, used)
    ensures Preserves(d, used, At(WordEnd(d), 0), 0)
  {
    if d.queryWords == 0 {
      MethodInv(d, used);
    } else if d.queryWords == 1 {
      UriInv(d, used);
    } else if d.queryWords == 2 {
      VersionInv(d, used);
    } else {
      FieldValueInv(d, used);
    }
  }

  lemma ReadToSpaceInv(d: Hts, blk: seq<byte>, p: nat, used: int)
    requires p < |blk| && d.parseState == ReadToSpace && Inv(d, used)
    ensures Preserves(d, used, ReadToSpaceArm(d, blk, p), p)
  {
    var q := Span(blk, p, |blk| - p, Token);
    var d1 := d.(word := Stored(d.word, d.wlen, blk[p..q]), wlen := d.wlen + (q - p));
    var r := ReadToSpaceArm(d, blk, p);
    TokenGrowsInv(d, used, d1.word, q - p);
    if d1.wlen > 4096 {
      assert r == At(d1.(parseState := Fatal), q);
    } else if q == |blk| {
      assert r == At(d1, q);
    } else {
      assert r == At(WordEnd(d1), q);
      WordEndInv(d1, used + (q - p));
    }
  }

  /**
   * An arm that continues in the arm for state `e`, `k` bytes further on,
   * keeps the invariant when that arm does and `e` keeps the error mark.
   */
  lemma ShiftPreserves(d: Hts, used: int, r: At, p: nat, e: Hts, k: nat)
    requires Preserves(e, used + k, r, p + k) && (Bad(d) ==> Bad(e))
    ensures Preserves(d, used, r, p)
  {
    assert used + k + (r.p - (p + k)) == used + (r.p - p);
  }

  /** Bytes added to the token being read are counted in `wlen`. */
  lemma TokenGrowsInv(d: Hts, used: int, w: Word, k: nat)
    requires d.parseState == ReadToSpace && Inv(d, used)
    ensures Inv(d.(word := w, wlen := d.wlen + k), used + k)
    ensures Inv(d.(word := w, wlen := d.wlen + k, parseState := Fatal), used + k)
  {
  }

  lemma StartInv(d: Hts, blk: seq<byte>, p: nat, used: int)
    requires p < |blk| && d.parseState == Start && Inv(d, used)
    ensures Inv(StartArm(d, blk, p).d, used + (StartArm(d, blk, p).p - p))
  {
    assert Step(Reset(d), blk, p) == ReadToSpaceArm(Reset(d), blk, p);
    ReadToSpaceInv(Reset(d), blk, p, 0);
  }

  /** The end of the blanks keeps the invariant without consuming a byte. */
  lemma BlankEndInv(d: Hts, used: int)
    requires (d.parseState == SkipSpc || d.parseState == SkipSpcToEoln) && Inv(d, used)
    ensures Preserves(d, used, At(BlankEnd(d), 0), 0)
  {
  }

  /** The blanks end inside the block and within the header limit. */
  lemma BlanksEndInv(d: Hts, blk: seq<byte>, p: nat, used: int)
    requires p < |blk| && (d.parseState == SkipSpc || d.parseState == SkipSpcToEoln) && Inv(d, used)
    requires var q := Span(blk, p, MAX_HTTP_HEADER_SIZE - d.headerSize, Blank(d.queryWords >= 8));
      q < |blk| && d.headerSize + (q - p) < MAX_HTTP_HEADER_SIZE
    ensures Preserves(d, used, SkipSpcArm(d, blk, p), p)
  {
    var q := Span(blk, p, MAX_HTTP_HEADER_SIZE - d.headerSize, Blank(d.queryWords >= 8));
    var d1 := d.(headerSize := d.headerSize + (q - p));
    assert SkipSpcArm(d, blk, p) == At(BlankEnd(d1), q);
    CountedInv(d, used, q - p);
    BlankEndInv(d1, used + (q - p));
  }

  /** Bytes consumed outside a token are counted in `header_size`. */
  lemma CountedInv(d: Hts, used: int, k: nat)
    requires d.parseState != Start && d.parseState != Done && d.parseState != ReadToSpace
    requires d.parseState != ReadToColon && Inv(d, used)
    ensures Inv(d.(headerSize := d.headerSize + k), used + k)
  {
  }

  lemma SkipSpcInv(d: Hts, blk: seq<byte>, p: nat, used: int)
    requires p < |blk| && (d.parseState == SkipSpc || d.parseState == SkipSpcToEoln) && Inv(d, used)
    ensures Preserves(d, used, SkipSpcArm(d, blk, p), p)
  {
    var q := Span(blk, p, MAX_HTTP_HEADER_SIZE - d.headerSize, Blank(d.queryWords >= 8));
    if q < |blk| && d.headerSize + (q - p) < MAX_HTTP_HEADER_SIZE {
      BlanksEndInv(d, blk, p, used);
    }
  }

  lemma ReadToColonInv(d: Hts, blk: seq<byte>, p: nat, used: int)
    requires p < |blk| && d.parseState == ReadToColon && Inv(d, used)
    ensures Preserves(d, used, ReadToColonArm(d, blk, p), p)
  {
  }

  lemma ReadIntInv(d: Hts, blk: seq<byte>, p: nat, used: int)
    requires p < |blk| && d.parseState == ReadInt && Inv(d, used)
    ensures Preserves(d, used, ReadIntArm(d, blk, p), p)
  {
  }

  lemma LineStartInv(d: Hts, blk: seq<byte>, p: nat, used: int)
    requires p <= |blk| && d.parseState == LineStart && Inv(d, used)
    ensures Preserves(d, used, LineStartArm(d, blk, p), p)
  {
  }

  lemma WantLastLfInv(d: Hts, blk: seq<byte>, p: nat, used: int)
    requires p < |blk| && d.parseState == WantLastLf && Inv(d, used)
    ensures Preserves(d, used, WantLastLfArm(d, blk, p), p)
  {
  }

  /** The record entering `htqp_linestart` after the line feed of a line. */
  lemma NewLineInv(d: Hts, used: int)
    requires d.parseState == WantLf && Inv(d, used)
    requires !(d.queryWords + 1 < 8 && Bad(d)) && d.httpVer > HTTP_V09
    ensures var w := d.queryWords + 1;
      Inv(d.(queryWords := if w < 8 then 8 else w, headerSize := d.headerSize + 1, parseState := LineStart),
          used + 1)
  {
  }

  /** The line feed of a line that is not the last: header lines follow. */
  lemma LineFeedInv(d: Hts, blk: seq<byte>, p: nat, used: int)
    requires p < |blk| && d.parseState == WantLf && Inv(d, used) && blk[p] == LF
    requires !(d.queryWords + 1 < 8 && Bad(d)) && d.httpVer > HTTP_V09
    ensures Preserves(d, used, WantLfArm(d, blk, p), p)
  {
    var w := d.queryWords + 1;
    var e := d.(queryWords := if w < 8 then 8 else w, headerSize := d.headerSize + 1, parseState := LineStart);
    NewLineInv(d, used);
    assert WantLfArm(d, blk, p) == LineStartArm(e, blk, p + 1);
    LineStartInv(e, blk, p + 1, used + 1);
  }

  lemma WantLfInv(d: Hts, blk: seq<byte>, p: nat, used: int)
    requires p <= |blk| && d.parseState == WantLf && Inv(d, used)
    ensures Preserves(d, used, WantLfArm(d, blk, p), p)
  {
    if p < |blk| && !(d.queryWords + 1 < 8 && Bad(d)) && d.httpVer > HTTP_V09 && blk[p] == LF {
      LineFeedInv(d, blk, p, used);
    }
  }

  lemma EolnInv(d: Hts, blk: seq<byte>, p: nat, used: int)
    requires p <= |blk| && d.parseState == Eoln && Inv(d, used)
    ensures Preserves(d, used, EolnArm(d, blk, p), p)
  {
    if p < |blk| {
      if blk[p] == CR {
        EolnCrInv(d, blk, p, used);
      } else {
        EolnLfInv(d, blk, p, used);
      }
    }
  }

  /** A carriage return is counted, then the line feed is expected. */
  lemma EolnCrInv(d: Hts, blk: seq<byte>, p: nat, used: int)
    requires p < |blk| && d.parseState == Eoln && Inv(d, used) && blk[p] == CR
    ensures Preserves(d, used, EolnArm(d, blk, p), p)
  {
    var e := d.(headerSize := d.headerSize + 1, parseState := WantLf);
    var r := WantLfArm(e, blk, p + 1);
    assert Step(e, blk, p + 1) == r;
    assert EolnArm(d, blk, p) == r;
    assert Inv(e, used + 1);
    WantLfInv(e, blk, p + 1, used + 1);
    ShiftPreserves(d, used, r, p, e, 1);
  }

  /** Without a carriage return the same byte is read as the line feed. */
  lemma EolnLfInv(d: Hts, blk: seq<byte>, p: nat, used: int)
    requires p < |blk| && d.parseState == Eoln && Inv(d, used) && blk[p] != CR
    ensures Preserves(d, used, EolnArm(d, blk, p), p)
  {
    var e := d.(parseState := WantLf);
    var r := WantLfArm(e, blk, p);
    assert Step(e, blk, p) == r;
    assert EolnArm(d, blk, p) == r;
    assert Inv(e, used);
    WantLfInv(e, blk, p, used);
    ShiftPreserves(d, used, r, p, e, 0);
  }

  lemma SkipToEolnInv(d: Hts, blk: seq<byte>, p: nat, used: int)
    requires p < |blk| && d.parseState == SkipToEoln && Inv(d, used)
    ensures Preserves(d, used, SkipToEolnArm(d, blk, p), p)
  {
    var q := Span(blk, p, MAX_HTTP_HEADER_SIZE - d.headerSize, Text);
    var d1 := d.(headerSize := d.headerSize + (q - p));
    CountedInv(d, used, q - p);
    if d1.headerSize < MAX_HTTP_HEADER_SIZE && q < |blk| {
      var e := d1.(parseState := Eoln);
      var r := EolnArm(e, blk, q);
      assert Step(e, blk, q) == r;
      assert SkipToEolnArm(d, blk, p) == r;
      EolnInv(e, blk, q, used + (q - p));
      ShiftPreserves(d, used, r, p, e, q - p);
    }
  }

  /** Every arm except the one that starts a request keeps the invariant and the error mark. */
  lemma StepPreserves(d: Hts, blk: seq<byte>, p: nat, used: int)
    requires p < |blk| && d.parseState != Done && d.parseState != Closed && d.parseState != Start
    requires Inv(d, used)
    ensures Preserves(d, used, Step(d, blk, p), p)
  {
    var s := Step(d, blk, p);
    match d.parseState
    case ReadToSpace => assert s == ReadToSpaceArm(d, blk, p); ReadToSpaceInv(d, blk, p, used);
    case SkipSpc => assert s == SkipSpcArm(d, blk, p); SkipSpcInv(d, blk, p, used);
    case SkipSpcToEoln => assert s == SkipSpcArm(d, blk, p); SkipSpcInv(d, blk, p, used);
    case ReadToColon => assert s == ReadToColonArm(d, blk, p); ReadToColonInv(d, blk, p, used);
    case ReadInt => assert s == ReadIntArm(d, blk, p); ReadIntInv(d, blk, p, used);
    case SkipToEoln => assert s == SkipToEolnArm(d, blk, p); SkipToEolnInv(d, blk, p, used);
    case Eoln => assert s == EolnArm(d, blk, p); EolnInv(d, blk, p, used);
    case WantLf => assert s == WantLfArm(d, blk, p); WantLfInv(d, blk, p, used);
    case LineStart => assert s == LineStartArm(d, blk, p); LineStartInv(d, blk, p, used);
    case WantLastLf => assert s == WantLastLfArm(d, blk, p); WantLastLfInv(d, blk, p, used);
    case Fatal => assert s == FatalArm(d, p);
  }

  /** One iteration of the inner loop keeps the invariant over the bytes it consumes. */
  lemma StepInv(d: Hts, blk: seq<byte>, p: nat, used: int)
    requires p < |blk| && d.parseState != Done && d.parseState != Closed && Inv(d, used)
    ensures Inv(Step(d, blk, p).d, used + (Step(d, blk, p).p - p))
    ensures d.parseState != Start && Bad(d) ==> Bad(Step(d, blk, p).d)
  {
    if d.parseState == Start {
      assert Step(d, blk, p) == StartArm(d, blk, p);
      StartInv(d, blk, p, used);
    } else {
      StepPreserves(d, blk, p, used);
    }
  }

  /**
   * The inner loop over a block keeps the invariant, counting the bytes it
   * consumed, and never clears the error mark of a request under way.
   */
  lemma {:induction false} RunBlockInv(d: Hts, blk: seq<byte>, p: nat, used: int)
    requires p <= |blk| && Inv(d, used)
    ensures Inv(RunBlock(d, blk, p).d, used + (RunBlock(d, blk, p).p - p))
    ensures d.parseState != Start && Bad(d) ==> Bad(RunBlock(d, blk, p).d)
    decreases |blk| - p, Rank(d)
  {
    if p < |blk| && d.parseState != Done {
      var s := Step(d, blk, p);
      StepMoves(d, blk, p);
      StepInv(d, blk, p, used);
      RunBlockInv(s.d, blk, s.p, used + (s.p - p));
    }
  }

  /**
   * A header that completes without the error mark has a valid request
   * line (one of the four methods, a non-empty URI, a known version) and
   * `header_size` is exactly the number of bytes consumed.
   */
  lemma CleanRequest(d: Hts, used: int)
    requires Inv(d, used) && d.parseState == Done && !Bad(d)
    ensures d.queryType.IsMethod() && d.uriSize > 0 && KnownVersion(d.httpVer)
    ensures d.headerSize == used > 0
    ensures d.uriOffset + d.uriSize <= d.headerSize && d.hostOffset + d.hostSize <= d.headerSize
    ensures -1 <= d.dataSize <= MAX_DATA_SIZE
  {
  }
}
