// The parser of `hts_parse_execute` as the C code runs it: `struct hts_data`
// is an object whose fields the arms of the `switch` update in place while
// pointer loops walk the block (net/net-http-server.c:241-551). Every arm
// is proved to leave the record exactly as the pure arm of `HtsParse`
// describes, so everything proved about those carries over.
module HtsServer {
  import opened HtsTypes
  import opened HtsRecord
  import opened HtsParse

  /**
   * `struct hts_data` (net/net-http-server.h:45-67). The `word[16]` buffer
   * is stored inside the struct, so it is a field holding 16 bytes, not
   * an object of its own that could be shared.
   */
  class HtsData {
    var queryType: QueryType
    var queryFlags: QueryFlags
    var queryWords: int
    var headerSize: int
    var firstLineSize: int
    var dataSize: int
    var hostOffset: int
    var hostSize: int
    var uriOffset: int
    var uriSize: int
    var httpVer: int
    var wlen: int
    var word: Word
    var extra: nat
    var extraInt: int
    var extraInt2: int
    var extraInt3: int
    var extraInt4: int
    var extraDouble: real
    var extraDouble2: real
    var parseState: ParseState
    var querySeqno: int

    /** The record's current contents as a value. */
    function Model(): Hts
      reads this
    {
      Hts(queryType, queryFlags, queryWords, headerSize, firstLineSize, dataSize, hostOffset,
          hostSize, uriOffset, uriSize, httpVer, wlen, word, extra, extraInt, extraInt2,
          extraInt3, extraInt4, extraDouble, extraDouble2, parseState, querySeqno)
    }

    /** A zeroed record, as `calloc` leaves it, with parse state `htqp_start`. */
    constructor()
      ensures Model() == Cleared(0)
    {
      queryType, queryFlags, queryWords, headerSize, firstLineSize := None, {}, 0, 0, 0;
      dataSize, hostOffset, hostSize, uriOffset, uriSize, httpVer, wlen := 0, 0, 0, 0, 0, 0, 0;
      word := ZeroWord();
      extra, extraInt, extraInt2, extraInt3, extraInt4 := 0, 0, 0, 0, 0;
      extraDouble, extraDouble2, parseState, querySeqno := 0.0, 0.0, Start, 0;
    }

    /** The `memset` of `htqp_start`, on the request fields. */
    method ClearRequest()
      modifies this`queryType, this`queryFlags, this`queryWords, this`headerSize
      modifies this`firstLineSize, this`dataSize
      ensures queryType == None && queryFlags == {} && queryWords == 0 && headerSize == 0
      ensures firstLineSize == 0 && dataSize == 0
    {
      queryType, queryFlags, queryWords, headerSize := None, {}, 0, 0;
      firstLineSize, dataSize := 0, 0;
    }

    /** The `memset` of `htqp_start`, on the positions of Host and the URI. */
    method ClearPositions()
      modifies this`hostOffset, this`hostSize, this`uriOffset, this`uriSize, this`httpVer, this`wlen
      ensures hostOffset == 0 && hostSize == 0 && uriOffset == 0 && uriSize == 0
      ensures httpVer == 0 && wlen == 0
    {
      hostOffset, hostSize, uriOffset, uriSize, httpVer, wlen := 0, 0, 0, 0, 0, 0;
    }

    /** The `memset` of `htqp_start`, on the executor's fields and the state. */
    method ClearExtra()
      modifies this`extra, this`extraInt, this`extraInt2, this`extraInt3, this`extraInt4
      modifies this`extraDouble, this`extraDouble2, this`parseState
      ensures extra == 0 && extraInt == 0 && extraInt2 == 0 && extraInt3 == 0 && extraInt4 == 0
      ensures extraDouble == 0.0 && extraDouble2 == 0.0 && parseState == Start
    {
      extra, extraInt, extraInt2, extraInt3, extraInt4 := 0, 0, 0, 0, 0;
      extraDouble, extraDouble2, parseState := 0.0, 0.0, Start;
    }

    /** `memset` of every field before `query_seqno`. */
    method Zero()
      modifies this
      ensures Model() == Cleared(old(querySeqno))
    {
      ClearRequest();
      ClearPositions();
      ClearExtra();
      word := ZeroWord();
    }

    /**
     * `htqp_start` before its fall-through: clear the record, count the
     * query, no body length, read the first word.
     */
    method Restart()
      modifies this
      ensures Model() == Reset(old(Model()))
    {
      Zero();
      querySeqno := Wrap32(querySeqno + 1);
      queryType := None;
      dataSize := -1;
      parseState := ReadToSpace;
    }

    /**
     * The loop of `htqp_readtospace` (`k` is `Token`) or `htqp_readtocolon`
     * (`k` is `Name`): copy the token's bytes into `word` while there is
     * room and count them all in `wlen` (never negative, so the guard on
     * the store only keeps the index inside the buffer).
     */
    method ScanWord(blk: seq<byte>, p: nat, k: Run) returns (q: nat)
      requires p <= |blk|
      modifies this`wlen, this`word
      ensures q == Span(blk, p, |blk| - p, k)
      ensures word == Stored(old(word), old(wlen), blk[p..q]) && wlen == old(wlen) + (q - p)
    {
      q := p;
      while q < |blk| && Keeps(k, blk[q])
        invariant p <= q <= |blk|
        invariant Span(blk, q, |blk| - q, k) == Span(blk, p, |blk| - p, k)
        invariant word == Stored(old(word), old(wlen), blk[p..q]) && wlen == old(wlen) + (q - p)
        decreases |blk| - q
      {
        StoredNext(old(word), old(wlen), blk[p..q], blk[q]);
        assert blk[p..q + 1] == blk[p..q] + [blk[q]];
        if 0 <= wlen < 15 {
          word := word[wlen := blk[q]];
        }
        wlen := wlen + 1;
        q := q + 1;
      }
    }

    /** Mark the request bad and skip the rest of the line. */
    method Failed()
      modifies this`parseState, this`queryFlags
      ensures Model() == Fail(old(Model()))
    {
      parseState := SkipToEoln;
      queryFlags := queryFlags + {QF_ERROR};
    }

    /** The first word: one of the four methods, compared with `memcmp`. */
    method MethodWord()
      modifies this`queryType, this`parseState, this`queryFlags
      ensures Model() == Method(old(Model()))
    {
      queryType := Error;
      if wlen == 3 && word[..3] == GET {
        queryType := Get;
      } else if wlen == 4 {
        if word[..4] == HEAD {
          queryType := Head;
        } else if word[..4] == POST {
          queryType := Post;
        }
      } else if wlen == 7 && word[..7] == OPTIONS {
        queryType := Options;
      }
      if queryType == Error {
        Failed();
      }
    }

    /** The second word: the URI's offset and length; empty is an error. */
    method UriWord()
      modifies this`uriOffset, this`uriSize, this`parseState, this`queryFlags
      ensures Model() == Uri(old(Model()))
    {
      uriOffset := headerSize;
      uriSize := wlen;
      if wlen == 0 {
        Failed();
      }
    }

    /** The third word: the version, none at all being HTTP/0.9. */
    method VersionWord()
      modifies this`httpVer, this`parseState, this`queryFlags
      ensures Model() == Version(old(Model()))
    {
      parseState := SkipSpcToEoln;
      if wlen != 0 {
        if wlen != 8 {
          Failed();
        } else if word[..8] == HTTP_1_0 {
          httpVer := HTTP_V10;
        } else if word[..8] == HTTP_1_1 {
          httpVer := HTTP_V11;
        } else {
          Failed();
        }
      } else {
        httpVer := HTTP_V09;
      }
    }

    /** A later word: the value of a Host or Connection field. */
    method FieldValueWord()
      modifies this`hostOffset, this`hostSize, this`parseState, this`queryFlags
      ensures Model() == FieldValue(old(Model()))
    {
      if wlen != 0 {
        if QF_HOST in queryFlags {
          hostOffset := headerSize;
          hostSize := wlen;
        } else if wlen == 10 && CaseEqN(word, KEEP_ALIVE_VALUE, 0, 10) {
          queryFlags := queryFlags + {QF_KEEPALIVE};
        }
      }
      queryFlags := queryFlags - {QF_HOST, QF_CONNECTION};
      parseState := SkipSpcToEoln;
    }

    /** The end of a word of `htqp_readtospace`: count it and hand it on. */
    method EndWord()
      modifies this`queryWords, this`queryType, this`uriOffset, this`uriSize, this`httpVer
      modifies this`hostOffset, this`hostSize, this`headerSize, this`parseState, this`queryFlags
      ensures Model() == WordEnd(old(Model()))
    {
      parseState := SkipSpc;
      queryWords := queryWords + 1;
      if queryWords == 1 {
        MethodWord();
      } else if queryWords == 2 {
        UriWord();
      } else if queryWords == 3 {
        VersionWord();
      } else {
        FieldValueWord();
      }
      headerSize := headerSize + wlen;
    }

    /** `htqp_readtospace`. */
    method ReadWord(blk: seq<byte>, p: nat) returns (q: nat)
      requires p < |blk| && parseState == ReadToSpace
      modifies this`queryWords, this`queryType, this`uriOffset, this`uriSize, this`httpVer, this`hostOffset
      modifies this`hostSize, this`headerSize, this`parseState, this`queryFlags, this`wlen, this`word
      ensures At(Model(), q) == ReadToSpaceArm(old(Model()), blk, p)
    {
      q := ScanWord(blk, p, Token);
      if wlen > 4096 {
        parseState := Fatal;
        return;
      }
      if q == |blk| {
        return;
      }
      EndWord();
    }

    /**
     * The loops of `htqp_skipspc` (`k` is `Blank`) and `htqp_skiptoeoln`
     * (`k` is `Text`): pass bytes of class `k`, counting each in
     * `header_size`, while the header is below its limit.
     */
    method SkipRun(blk: seq<byte>, p: nat, k: Run) returns (q: nat)
      requires p <= |blk|
      modifies this`headerSize
      ensures q == Span(blk, p, MAX_HTTP_HEADER_SIZE - old(headerSize), k)
      ensures headerSize == old(headerSize) + (q - p)
    {
      q := p;
      while headerSize < MAX_HTTP_HEADER_SIZE && q < |blk| && Keeps(k, blk[q])
        invariant p <= q <= |blk| && headerSize == old(headerSize) + (q - p)
        invariant Span(blk, q, MAX_HTTP_HEADER_SIZE - headerSize, k)
               == Span(blk, p, MAX_HTTP_HEADER_SIZE - old(headerSize), k)
        decreases |blk| - q
      {
        headerSize := headerSize + 1;
        q := q + 1;
      }
    }

    /** What follows the blanks of `htqp_skipspc`. */
    method EndBlanks()
      modifies this`wlen, this`dataSize, this`parseState, this`queryFlags
      ensures Model() == BlankEnd(old(Model()))
    {
      if parseState == SkipSpcToEoln {
        parseState := Eoln;
      } else if queryWords < 3 {
        wlen := 0;
        parseState := ReadToSpace;
      } else if QF_DATASIZE in queryFlags {
        if dataSize != -1 {
          Failed();
        } else {
          parseState := ReadInt;
          dataSize := 0;
        }
      } else if QF_HOST in queryFlags || QF_CONNECTION in queryFlags {
        wlen := 0;
        parseState := ReadToSpace;
      } else {
        parseState := SkipToEoln;
      }
    }

    /** `htqp_skipspc` and `htqp_skipspctoeoln`. */
    method SkipBlanks(blk: seq<byte>, p: nat) returns (q: nat)
      requires p < |blk| && (parseState == SkipSpc || parseState == SkipSpcToEoln)
      modifies this`headerSize, this`wlen, this`dataSize, this`parseState, this`queryFlags
      ensures At(Model(), q) == SkipSpcArm(old(Model()), blk, p)
    {
      q := SkipRun(blk, p, Blank(queryWords >= 8));
      if headerSize >= MAX_HTTP_HEADER_SIZE {
        parseState := Fatal;
        return;
      }
      if q == |blk| {
        return;
      }
      EndBlanks();
    }

    /** The `strncasecmp` tests of `htqp_readtocolon` on a complete name. */
    method MatchName()
      modifies this`queryFlags
      ensures queryFlags == NameFlags(old(Model()))
    {
      if wlen == 4 && CaseEqN(word, HOST_NAME, 0, 4) {
        queryFlags := queryFlags + {QF_HOST};
      } else if wlen == 10 && CaseEqN(word, CONNECTION_NAME, 0, 10) {
        queryFlags := queryFlags + {QF_CONNECTION};
      } else if wlen == 14 && CaseEqN(word, CONTENT_LENGTH_NAME, 0, 14) {
        queryFlags := queryFlags + {QF_DATASIZE};
      } else {
        queryFlags := queryFlags - {QF_HOST, QF_DATASIZE, QF_CONNECTION};
      }
    }

    /** `htqp_readtocolon`. */
    method ReadName(blk: seq<byte>, p: nat) returns (q: nat)
      requires p < |blk| && parseState == ReadToColon
      modifies this`headerSize, this`wlen, this`parseState, this`queryFlags, this`word
      ensures At(Model(), q) == ReadToColonArm(old(Model()), blk, p)
    {
      q := ScanWord(blk, p, Name);
      if wlen > 4096 {
        parseState := Fatal;
        return;
      }
      if q == |blk| {
        return;
      }
      if blk[q] != COLON {
        headerSize := headerSize + wlen;
        Failed();
        return;
      }
      q := q + 1;
      MatchName();
      headerSize := headerSize + wlen + 1;
      parseState := SkipSpc;
    }

    /**
     * The digit loop of `htqp_readint`: accumulate the value from
     * `data_size`, count each digit in `header_size` and clear the
     * Content-Length flag, and stop at the overflow guard with the error
     * mark.
     */
    method Digits(blk: seq<byte>, p: nat) returns (q: nat, tt: int)
      requires p <= |blk|
      modifies this`headerSize, this`parseState, this`queryFlags
      ensures var a := AccDigits(blk, p, old(dataSize));
        && q == a.q && tt == a.value && headerSize == old(headerSize) + (q - p)
        && queryFlags == (if q > p then old(queryFlags) - {QF_DATASIZE} else old(queryFlags))
                         + (if a.overflow then {QF_ERROR} else {})
        && parseState == if a.overflow then SkipToEoln else old(parseState)
    {
      tt := dataSize;
      q := p;
      while q < |blk| && IsDigit(blk[q])
        invariant p <= q <= |blk| && AccDigits(blk, q, tt) == AccDigits(blk, p, old(dataSize))
        invariant headerSize == old(headerSize) + (q - p) && parseState == old(parseState)
        invariant queryFlags == if q > p then old(queryFlags) - {QF_DATASIZE} else old(queryFlags)
        decreases |blk| - q
      {
        if tt >= DIGIT_LIMIT {
          queryFlags := queryFlags + {QF_ERROR};
          parseState := SkipToEoln;
          return;
        }
        tt := tt * 10 + (blk[q] as int - 48);
        q := q + 1;
        headerSize := headerSize + 1;
        queryFlags := queryFlags - {QF_DATASIZE};
      }
    }

    /** `htqp_readint`: the digits of Content-Length and what follows them. */
    method ReadLength(blk: seq<byte>, p: nat) returns (q: nat)
      requires p < |blk| && parseState == ReadInt
      modifies this`headerSize, this`dataSize, this`parseState, this`queryFlags
      ensures At(Model(), q) == ReadIntArm(old(Model()), blk, p)
    {
      var tt;
      q, tt := Digits(blk, p);
      dataSize := tt;
      if q == |blk| {
        return;
      }
      if QF_DATASIZE in queryFlags {
        Failed();
      } else {
        parseState := SkipSpcToEoln;
      }
    }

    /** `htqp_skiptoeoln`, falling through to `htqp_eoln`. */
    method SkipToLineEnd(blk: seq<byte>, p: nat) returns (q: nat)
      requires p < |blk| && parseState == SkipToEoln
      modifies this`headerSize, this`queryWords, this`firstLineSize
      modifies this`wlen, this`parseState, this`queryFlags
      ensures At(Model(), q) == SkipToEolnArm(old(Model()), blk, p)
    {
      q := SkipRun(blk, p, Text);
      if headerSize >= MAX_HTTP_HEADER_SIZE {
        parseState := Fatal;
        return;
      }
      if q == |blk| {
        return;
      }
      parseState := Eoln;
      ghost var d1 := Model();
      assert HtsParse.Step(d1, blk, q) == EolnArm(d1, blk, q);
      q := LineEnd(blk, q);
    }

    /** `htqp_eoln`, falling through to `htqp_wantlf`. */
    method LineEnd(blk: seq<byte>, p: nat) returns (q: nat)
      requires p <= |blk| && parseState == Eoln
      modifies this`headerSize, this`queryWords, this`firstLineSize
      modifies this`wlen, this`parseState, this`queryFlags
      ensures At(Model(), q) == EolnArm(old(Model()), blk, p)
    {
      q := p;
      if q == |blk| {
        return;
      }
      if blk[q] == CR {
        q := q + 1;
        headerSize := headerSize + 1;
      }
      parseState := WantLf;
      ghost var d1 := Model();
      assert HtsParse.Step(d1, blk, q) == WantLfArm(d1, blk, q);
      q := LineFeed(blk, q);
    }

    /** `htqp_wantlf`, falling through to `htqp_linestart`. */
    method LineFeed(blk: seq<byte>, p: nat) returns (q: nat)
      requires p <= |blk| && parseState == WantLf
      modifies this`headerSize, this`queryWords, this`firstLineSize
      modifies this`wlen, this`parseState, this`queryFlags
      ensures At(Model(), q) == WantLfArm(old(Model()), blk, p)
    {
      q := p;
      if q == |blk| {
        return;
      }
      queryWords := queryWords + 1;
      if queryWords < 8 {
        queryWords := 8;
        if QF_ERROR in queryFlags {
          parseState := Fatal;
          return;
        }
      }
      if httpVer <= HTTP_V09 {
        parseState := WantLastLf;
        return;
      }
      if blk[q] != LF {
        Failed();
        return;
      }
      q := q + 1;
      headerSize := headerSize + 1;
      parseState := LineStart;
      ghost var d1 := Model();
      assert HtsParse.Step(d1, blk, q) == LineStartArm(d1, blk, q);
      q := NewLine(blk, q);
    }

    /** `htqp_linestart`. */
    method NewLine(blk: seq<byte>, p: nat) returns (q: nat)
      requires p <= |blk| && parseState == LineStart
      modifies this`headerSize, this`firstLineSize, this`wlen, this`parseState
      ensures At(Model(), q) == LineStartArm(old(Model()), blk, p)
    {
      q := p;
      if q == |blk| {
        return;
      }
      if firstLineSize == 0 {
        firstLineSize := headerSize;
      }
      if blk[q] == CR {
        q := q + 1;
        headerSize := headerSize + 1;
        parseState := WantLastLf;
      } else if blk[q] == LF {
        parseState := WantLastLf;
      } else if QF_ERROR in queryFlags {
        parseState := SkipToEoln;
      } else {
        wlen := 0;
        parseState := ReadToColon;
      }
    }

    /** `htqp_wantlastlf`, falling through to `htqp_done`. */
    method LastLineFeed(blk: seq<byte>, p: nat) returns (q: nat)
      requires p < |blk| && parseState == WantLastLf
      modifies this`headerSize, this`firstLineSize, this`parseState
      ensures At(Model(), q) == WantLastLfArm(old(Model()), blk, p)
    {
      q := p;
      if blk[q] != LF {
        parseState := Fatal;
        return;
      }
      q := q + 1;
      headerSize := headerSize + 1;
      if firstLineSize == 0 {
        firstLineSize := headerSize;
      }
      parseState := Done;
    }

    /** `htqp_fatal`. */
    method Abort()
      requires parseState == Fatal
      modifies this`parseState, this`queryFlags
      ensures Model() == FatalArm(old(Model()), 0).d
    {
      queryFlags := queryFlags + {QF_ERROR};
      parseState := Done;
    }

  }
}
