// Resumption at block boundaries: `hts_parse_execute` (net/net-http-server.c:226-240)
// runs the inner loop over each block of the input chain in turn, and every
// case of the `switch` keeps what it needs in `struct hts_data` (the token
// count `wlen` and the word buffer, `header_size`, the Content-Length
// accumulator, the pending end-of-line states), so a request parses the same
// however its bytes are cut into blocks. The one exception is the 4096-byte
// token limit: a token already past it at the end of a block goes fatal
// there, while the same token in one block goes fatal where it ends; both
// mark the request bad.
module HtsSplit {
  import opened HtsTypes
  import opened HtsRecord
  import opened HtsParse

  /** A result read in `b` placed after `m` bytes of an earlier block. */
  function Shifted(r: At, m: nat): At
  {
    At(r.d, m + r.p)
  }

  function ShiftedDigits(r: Digits, m: nat): Digits
  {
    Digits(m + r.q, r.value, r.overflow)
  }

  /** The record of a token that has gone fatal past the 4096-byte limit. */
  predicate TokenOverLimit(x: Hts)
  {
    x.parseState == Fatal && x.wlen > 4096
  }

  /**
   * After a token over the limit at the end of the first block, the run over
   * the joined bytes differs from the split one only in a larger token count
   * and a later stop: its record is still at `htqp_fatal`, or past it with
   * the request marked bad and the header over.
   */
  predicate OverLimitAgrees(x: Hts, j: At, m: nat)
  {
    && j.p >= m && j.d.wlen >= x.wlen
    && (j.d.(wlen := x.wlen) == x ||
        j.d.(wlen := x.wlen) == x.(queryFlags := x.queryFlags + {QF_ERROR}, parseState := Done))
  }

  // Bytes of `a + b` in terms of the two blocks.

  lemma SliceSuffix(a: seq<byte>, b: seq<byte>, k: nat, q: nat)
    requires k <= q <= |b|
    ensures (a + b)[|a| + k..|a| + q] == b[k..q]
  {
  }

  lemma SlicePrefix(a: seq<byte>, b: seq<byte>, p: nat, q: nat)
    requires p <= q <= |a|
    ensures (a + b)[p..q] == a[p..q]
  {
  }

  lemma SliceAcross(a: seq<byte>, b: seq<byte>, p: nat, q: nat)
    requires p <= |a| && q <= |b|
    ensures (a + b)[p..|a| + q] == a[p..] + b[..q]
  {
    assert (a + b)[p..|a| + q] == (a + b)[p..|a|] + (a + b)[|a|..|a| + q];
  }

  /** Once 15 bytes of a token are stored, later bytes leave the buffer alone. */
  lemma StoredFull(w: Word, n: int, s: seq<byte>)
    requires n >= 15
    ensures Stored(w, n, s) == w
  {
  }

  // The scanning loops only look forward.

  lemma {:induction false} SpanSuffix(a: seq<byte>, b: seq<byte>, k: nat, room: int, kind: Run)
    requires k <= |b|
    ensures Span(a + b, |a| + k, room, kind) == |a| + Span(b, k, room, kind)
    decreases |b| - k
  {
    if k < |b| && room > 0 {
      assert (a + b)[|a| + k] == b[k];
      if Keeps(kind, b[k]) {
        SpanSuffix(a, b, k + 1, room - 1, kind);
      }
    }
  }

  /** A loop that stops inside `a` stops there in `a + b`; one that reaches its end goes on in `b`. */
  lemma {:induction false} SpanPrefix(a: seq<byte>, b: seq<byte>, p: nat, room: int, kind: Run)
    requires p <= |a|
    ensures var q := Span(a, p, room, kind);
      && (q < |a| ==> Span(a + b, p, room, kind) == q)
      && (q == |a| ==> Span(a + b, p, room, kind) == |a| + Span(b, 0, room - (|a| - p), kind))
    decreases |a| - p
  {
    if p == |a| {
      SpanSuffix(a, b, 0, room, kind);
    } else if room > 0 {
      assert (a + b)[p] == a[p];
      if Keeps(kind, a[p]) {
        SpanPrefix(a, b, p + 1, room - 1, kind);
      }
    }
  }

  /** A room of at least the rest of the block does not limit the loop. */
  lemma {:induction false} SpanRoom(blk: seq<byte>, p: nat, r1: int, r2: int, kind: Run)
    requires p <= |blk| && r1 >= |blk| - p && r2 >= |blk| - p
    ensures Span(blk, p, r1, kind) == Span(blk, p, r2, kind)
    decreases |blk| - p
  {
    if p < |blk| && Keeps(kind, blk[p]) {
      SpanRoom(blk, p + 1, r1 - 1, r2 - 1, kind);
    }
  }

  lemma {:induction false} AccDigitsSuffix(a: seq<byte>, b: seq<byte>, k: nat, tt: int)
    requires k <= |b|
    ensures AccDigits(a + b, |a| + k, tt) == ShiftedDigits(AccDigits(b, k, tt), |a|)
    decreases |b| - k
  {
    if k < |b| {
      assert (a + b)[|a| + k] == b[k];
      if IsDigit(b[k]) && tt < DIGIT_LIMIT {
        AccDigitsSuffix(a, b, k + 1, tt * 10 + (b[k] as int - 48));
      }
    }
  }

  /** The Content-Length accumulator carries over a block boundary. */
  lemma {:induction false} AccDigitsPrefix(a: seq<byte>, b: seq<byte>, p: nat, tt: int)
    requires p <= |a|
    ensures var r := AccDigits(a, p, tt);
      && (r.q < |a| ==> AccDigits(a + b, p, tt) == r)
      && (r.q == |a| ==> !r.overflow && AccDigits(a + b, p, tt) == ShiftedDigits(AccDigits(b, 0, r.value), |a|))
    decreases |a| - p
  {
    if p == |a| {
      AccDigitsSuffix(a, b, 0, tt);
    } else {
      assert (a + b)[p] == a[p];
      if IsDigit(a[p]) && tt < DIGIT_LIMIT {
        AccDigitsPrefix(a, b, p + 1, tt * 10 + (a[p] as int - 48));
      }
    }
  }

  // Reading in a later block is reading in that block, shifted.

  /** A token loop in a later block reads the same bytes and builds the same record. */
  lemma TokenShift(d: Hts, a: seq<byte>, b: seq<byte>, k: nat, kind: Run)
    requires k < |b|
    ensures var q := Span(b, k, |b| - k, kind);
      var r := Span(a + b, |a| + k, |a + b| - (|a| + k), kind);
      && r == |a| + q && (r == |a + b| <==> q == |b|)
      && d.(word := Stored(d.word, d.wlen, (a + b)[|a| + k..r]), wlen := d.wlen + (r - (|a| + k)))
         == d.(word := Stored(d.word, d.wlen, b[k..q]), wlen := d.wlen + (q - k))
  {
    var q := Span(b, k, |b| - k, kind);
    assert |a + b| - (|a| + k) == |b| - k;
    SpanSuffix(a, b, k, |b| - k, kind);
    SliceSuffix(a, b, k, q);
  }

  lemma ReadToSpaceSuffix(d: Hts, a: seq<byte>, b: seq<byte>, k: nat)
    requires k < |b| && d.parseState == ReadToSpace
    ensures ReadToSpaceArm(d, a + b, |a| + k) == Shifted(ReadToSpaceArm(d, b, k), |a|)
  {
    TokenShift(d, a, b, k, Token);
  }

  lemma SkipSpcSuffix(d: Hts, a: seq<byte>, b: seq<byte>, k: nat)
    requires k < |b| && (d.parseState == SkipSpc || d.parseState == SkipSpcToEoln)
    ensures SkipSpcArm(d, a + b, |a| + k) == Shifted(SkipSpcArm(d, b, k), |a|)
  {
    SpanSuffix(a, b, k, MAX_HTTP_HEADER_SIZE - d.headerSize, Blank(d.queryWords >= 8));
  }

  lemma ReadToColonSuffix(d: Hts, a: seq<byte>, b: seq<byte>, k: nat)
    requires k < |b| && d.parseState == ReadToColon
    ensures ReadToColonArm(d, a + b, |a| + k) == Shifted(ReadToColonArm(d, b, k), |a|)
  {
    TokenShift(d, a, b, k, Name);
    var q := Span(b, k, |b| - k, Name);
    if q < |b| {
      assert (a + b)[|a| + q] == b[q];
    }
  }

  lemma ReadIntSuffix(d: Hts, a: seq<byte>, b: seq<byte>, k: nat)
    requires k < |b| && d.parseState == ReadInt
    ensures ReadIntArm(d, a + b, |a| + k) == Shifted(ReadIntArm(d, b, k), |a|)
  {
    AccDigitsSuffix(a, b, k, d.dataSize);
  }

  lemma SkipToEolnSuffix(d: Hts, a: seq<byte>, b: seq<byte>, k: nat)
    requires k < |b| && d.parseState == SkipToEoln
    ensures SkipToEolnArm(d, a + b, |a| + k) == Shifted(SkipToEolnArm(d, b, k), |a|)
    decreases 12 - Order(d.parseState), 0
  {
    var q := Span(b, k, MAX_HTTP_HEADER_SIZE - d.headerSize, Text);
    SpanSuffix(a, b, k, MAX_HTTP_HEADER_SIZE - d.headerSize, Text);
    var d1 := d.(headerSize := d.headerSize + (q - k));
    if d1.headerSize < MAX_HTTP_HEADER_SIZE && q < |b| {
      StepSuffix(d1.(parseState := Eoln), a, b, q);
    }
  }

  lemma EolnSuffix(d: Hts, a: seq<byte>, b: seq<byte>, k: nat)
    requires k <= |b| && d.parseState == Eoln
    ensures EolnArm(d, a + b, |a| + k) == Shifted(EolnArm(d, b, k), |a|)
    decreases 12 - Order(d.parseState), 0
  {
    if k < |b| {
      assert (a + b)[|a| + k] == b[k];
      if b[k] == CR {
        StepSuffix(d.(headerSize := d.headerSize + 1, parseState := WantLf), a, b, k + 1);
      } else {
        StepSuffix(d.(parseState := WantLf), a, b, k);
      }
    }
  }

  lemma WantLfSuffix(d: Hts, a: seq<byte>, b: seq<byte>, k: nat)
    requires k <= |b| && d.parseState == WantLf
    ensures WantLfArm(d, a + b, |a| + k) == Shifted(WantLfArm(d, b, k), |a|)
    decreases 12 - Order(d.parseState), 0
  {
    if k < |b| {
      assert (a + b)[|a| + k] == b[k];
      var w := d.queryWords + 1;
      var d1 := d.(queryWords := if w < 8 then 8 else w);
      if !(w < 8 && QF_ERROR in d1.queryFlags) && d1.httpVer > HTTP_V09 && b[k] == LF {
        StepSuffix(d1.(headerSize := d1.headerSize + 1, parseState := LineStart), a, b, k + 1);
      }
    }
  }

  lemma LineStartSuffix(d: Hts, a: seq<byte>, b: seq<byte>, k: nat)
    requires k <= |b| && d.parseState == LineStart
    ensures LineStartArm(d, a + b, |a| + k) == Shifted(LineStartArm(d, b, k), |a|)
  {
    if k < |b| {
      assert (a + b)[|a| + k] == b[k];
    }
  }

  lemma WantLastLfSuffix(d: Hts, a: seq<byte>, b: seq<byte>, k: nat)
    requires k < |b| && d.parseState == WantLastLf
    ensures WantLastLfArm(d, a + b, |a| + k) == Shifted(WantLastLfArm(d, b, k), |a|)
  {
    assert (a + b)[|a| + k] == b[k];
  }

  /** One iteration of the inner loop in a later block. */
  lemma StepSuffix(d: Hts, a: seq<byte>, b: seq<byte>, k: nat)
    requires Enterable(d, b, k)
    ensures Enterable(d, a + b, |a| + k)
    ensures Step(d, a + b, |a| + k) == Shifted(Step(d, b, k), |a|)
    decreases 12 - Order(d.parseState), 1
  {
    match d.parseState
    case Start => StepSuffix(Reset(d), a, b, k);
    case ReadToSpace => ReadToSpaceSuffix(d, a, b, k);
    case SkipSpc => SkipSpcSuffix(d, a, b, k);
    case SkipSpcToEoln => SkipSpcSuffix(d, a, b, k);
    case ReadToColon => ReadToColonSuffix(d, a, b, k);
    case ReadInt => ReadIntSuffix(d, a, b, k);
    case SkipToEoln => SkipToEolnSuffix(d, a, b, k);
    case Eoln => EolnSuffix(d, a, b, k);
    case WantLf => WantLfSuffix(d, a, b, k);
    case LineStart => LineStartSuffix(d, a, b, k);
    case WantLastLf => WantLastLfSuffix(d, a, b, k);
    case Done =>
    case Fatal =>
  }

  /** The inner loop stops at the end of the block or once the header is complete. */
  lemma RunBlockStops(d: Hts, blk: seq<byte>, p: nat)
    requires p <= |blk| && d.parseState != Closed
    requires p == |blk| || d.parseState == Done
    ensures RunBlock(d, blk, p) == At(d, p)
  {
  }

  /** Otherwise it runs one iteration and goes on from there. */
  lemma RunBlockGoes(d: Hts, blk: seq<byte>, p: nat)
    requires p < |blk| && d.parseState != Closed && d.parseState != Done
    ensures Step(d, blk, p).d.parseState != Closed && Step(d, blk, p).p <= |blk|
    ensures RunBlock(d, blk, p) == RunBlock(Step(d, blk, p).d, blk, Step(d, blk, p).p)
  {
    StepMoves(d, blk, p);
  }

  /** `b` is what follows the first `m` bytes of `h`. */
  predicate Tail(h: seq<byte>, b: seq<byte>, m: nat)
  {
    m + |b| == |h| && h[m..] == b
  }

  lemma TailSplit(h: seq<byte>, b: seq<byte>, m: nat)
    requires Tail(h, b, m)
    ensures |h[..m]| == m && h[..m] + b == h
  {
    assert h == h[..m] + h[m..];
  }

  lemma StepTail(d: Hts, h: seq<byte>, b: seq<byte>, m: nat, k: nat, i: nat)
    requires Tail(h, b, m) && k < |b| && i == m + k && d.parseState != Closed && d.parseState != Done
    ensures Step(d, h, i) == Shifted(Step(d, b, k), m)
  {
    TailSplit(h, b, m);
    StepSuffix(d, h[..m], b, k);
  }

  /** One iteration over the rest of a block, as seen by both inner loops. */
  lemma TailNext(d: Hts, h: seq<byte>, b: seq<byte>, m: nat, k: nat, i: nat) returns (s: At, j: nat)
    requires Tail(h, b, m) && k < |b| && i == m + k && d.parseState != Closed && d.parseState != Done
    ensures s.d.parseState != Closed && k <= s.p <= |b| && (s.p > k || Rank(s.d) < Rank(d))
    ensures j == m + s.p && j <= |h|
    ensures RunBlock(d, b, k) == RunBlock(s.d, b, s.p)
    ensures RunBlock(d, h, i) == RunBlock(s.d, h, j)
  {
    s := Step(d, b, k);
    j := m + s.p;
    StepMoves(d, b, k);
    StepTail(d, h, b, m, k, i);
    RunBlockGoes(d, b, k);
    RunBlockGoes(d, h, i);
  }

  /** The inner loop over the rest of a block: positions move by the bytes before it. */
  lemma {:induction false} RunBlockTail(d: Hts, h: seq<byte>, b: seq<byte>, m: nat, k: nat, i: nat)
    requires Tail(h, b, m) && k <= |b| && i == m + k && d.parseState != Closed
    ensures RunBlock(d, h, i) == Shifted(RunBlock(d, b, k), m)
    decreases |b| - k, Rank(d)
  {
    if k == |b| || d.parseState == Done {
      RunBlockStops(d, b, k);
      RunBlockStops(d, h, i);
    } else {
      var s, j := TailNext(d, h, b, m, k, i);
      RunBlockTail(s.d, h, b, m, s.p, j);
    }
  }

  lemma TailOf(a: seq<byte>, b: seq<byte>)
    ensures Tail(a + b, b, |a|)
  {
    assert (a + b)[|a|..] == b;
  }

  // Reading up to the end of an earlier block, and on into a later one.

  /**
   * One iteration from a position in `a`, run over `a` (`s`) and over
   * `a + b` (`j`): the same, or `s` stopped at the end of `a` and `j` is the
   * next iteration over `b` (shifted), or `s` is a token over the limit at
   * the end of `a` and `j` the same token read further.
   */
  predicate StepAgrees(s: At, j: At, a: seq<byte>, b: seq<byte>)
  {
    || j == s
    || (&& s.p == |a| && 0 < |b| && s.d.parseState !in {Closed, Done, Fatal}
        && j == Shifted(Step(s.d, b, 0), |a|))
    || (&& s.p == |a| && TokenOverLimit(s.d) && j.d.parseState == Fatal && j.p >= |a|
        && j.d.wlen >= s.d.wlen && j.d.(wlen := s.d.wlen) == s.d)
  }

  /** The record `htqp_readtospace` leaves at the end of `a` from `p`, before the limit check. */
  function TokenSoFar(d: Hts, a: seq<byte>, p: nat): Hts
    requires p <= |a|
  {
    d.(word := Stored(d.word, d.wlen, a[p..]), wlen := d.wlen + (|a| - p))
  }

  /** A token loop, whose room is the rest of its block, over `a` and over `a + b`. */
  lemma SpanWhole(a: seq<byte>, b: seq<byte>, p: nat, kind: Run)
    requires p <= |a|
    ensures var q := Span(a, p, |a| - p, kind);
      var r := Span(a + b, p, |a + b| - p, kind);
      && (q < |a| ==> r == q)
      && (q == |a| ==> r == |a| + Span(b, 0, |b| - 0, kind))
  {
    SpanRoom(a, p, |a| - p, |a + b| - p, kind);
    SpanPrefix(a, b, p, |a + b| - p, kind);
    assert |a + b| - p - (|a| - p) == |b| - 0;
  }

  /** A token that ends inside `a` is read the same in `a + b`. */
  lemma TokenInside(d: Hts, a: seq<byte>, b: seq<byte>, p: nat, kind: Run)
    requires p < |a| && Span(a, p, |a| - p, kind) < |a|
    ensures var q := Span(a, p, |a| - p, kind);
      var r := Span(a + b, p, |a + b| - p, kind);
      && r == q && r < |a + b|
      && d.(word := Stored(d.word, d.wlen, (a + b)[p..r]), wlen := d.wlen + (r - p))
         == d.(word := Stored(d.word, d.wlen, a[p..q]), wlen := d.wlen + (q - p))
  {
    var q := Span(a, p, |a| - p, kind);
    SpanWhole(a, b, p, kind);
    SlicePrefix(a, b, p, q);
  }

  lemma ReadToSpaceInside(d: Hts, a: seq<byte>, b: seq<byte>, p: nat)
    requires p < |a| && d.parseState == ReadToSpace && Span(a, p, |a| - p, Token) < |a|
    ensures ReadToSpaceArm(d, a + b, p) == ReadToSpaceArm(d, a, p)
  {
    TokenInside(d, a, b, p, Token);
  }

  /**
   * A token that reaches the end of `a`: the joined loop reads on into `b`,
   * and its record is the one the loop over `b` builds from where `a` left it.
   */
  lemma TokenAcross(d: Hts, a: seq<byte>, b: seq<byte>, p: nat, kind: Run)
    requires p < |a| && Span(a, p, |a| - p, kind) == |a|
    ensures var x := TokenSoFar(d, a, p);
      var q2 := Span(b, 0, |b| - 0, kind);
      var r := Span(a + b, p, |a + b| - p, kind);
      && x == d.(word := Stored(d.word, d.wlen, a[p..|a|]), wlen := d.wlen + (|a| - p))
      && r == |a| + q2 && (r == |a + b| <==> q2 == |b|)
      && d.(word := Stored(d.word, d.wlen, (a + b)[p..r]), wlen := d.wlen + (r - p))
         == x.(word := Stored(x.word, x.wlen, b[0..q2]), wlen := x.wlen + (q2 - 0))
  {
    SpanWhole(a, b, p, kind);
    var q2 := Span(b, 0, |b| - 0, kind);
    var r := Span(a + b, p, |a + b| - p, kind);
    SliceAcross(a, b, p, q2);
    assert (a + b)[p..r] == a[p..] + b[..q2];
    assert b[0..q2] == b[..q2] && a[p..|a|] == a[p..];
    StoredSplit(d.word, d.wlen, a[p..], b[..q2]);
  }

  /** The same, for a token already over the limit at the end of `a`: only its count grows. */
  lemma TokenOver(d: Hts, a: seq<byte>, b: seq<byte>, p: nat, kind: Run)
    requires p < |a| && Span(a, p, |a| - p, kind) == |a| && TokenSoFar(d, a, p).wlen > 4096
    ensures var x := TokenSoFar(d, a, p);
      var r := Span(a + b, p, |a + b| - p, kind);
      && x == d.(word := Stored(d.word, d.wlen, a[p..|a|]), wlen := d.wlen + (|a| - p))
      && |a| <= r && d.wlen + (r - p) >= x.wlen
      && d.(word := Stored(d.word, d.wlen, (a + b)[p..r]), wlen := x.wlen) == x
  {
    var x := TokenSoFar(d, a, p);
    SpanWhole(a, b, p, kind);
    var q2 := Span(b, 0, |b| - 0, kind);
    var r := Span(a + b, p, |a + b| - p, kind);
    SliceAcross(a, b, p, q2);
    assert (a + b)[p..r] == a[p..] + b[..q2];
    assert a[p..|a|] == a[p..];
    StoredSplit(d.word, d.wlen, a[p..], b[..q2]);
    StoredFull(x.word, x.wlen, b[..q2]);
  }

  lemma ReadToSpaceResume(d: Hts, a: seq<byte>, b: seq<byte>, p: nat)
    requires p < |a| && d.parseState == ReadToSpace && Span(a, p, |a| - p, Token) == |a|
    requires TokenSoFar(d, a, p).wlen <= 4096
    ensures ReadToSpaceArm(d, a, p) == At(TokenSoFar(d, a, p), |a|)
    ensures 0 < |b| ==> ReadToSpaceArm(d, a + b, p) == Shifted(ReadToSpaceArm(TokenSoFar(d, a, p), b, 0), |a|)
  {
    TokenAcross(d, a, b, p, Token);
  }

  lemma ReadToSpaceOver(d: Hts, a: seq<byte>, b: seq<byte>, p: nat)
    requires p < |a| && d.parseState == ReadToSpace && Span(a, p, |a| - p, Token) == |a|
    requires TokenSoFar(d, a, p).wlen > 4096
    ensures ReadToSpaceArm(d, a, p) == At(TokenSoFar(d, a, p).(parseState := Fatal), |a|)
    ensures var j := ReadToSpaceArm(d, a + b, p);
      && j.p >= |a| && j.d.parseState == Fatal && j.d.wlen >= TokenSoFar(d, a, p).wlen
      && j.d.(wlen := TokenSoFar(d, a, p).wlen) == TokenSoFar(d, a, p).(parseState := Fatal)
  {
    TokenOver(d, a, b, p, Token);
  }

  lemma ReadToSpacePrefix(d: Hts, a: seq<byte>, b: seq<byte>, p: nat)
    requires p < |a| && 0 < |b| && d.parseState == ReadToSpace
    ensures StepAgrees(ReadToSpaceArm(d, a, p), ReadToSpaceArm(d, a + b, p), a, b)
  {
    if Span(a, p, |a| - p, Token) < |a| {
      ReadToSpaceInside(d, a, b, p);
    } else if TokenSoFar(d, a, p).wlen > 4096 {
      ReadToSpaceOver(d, a, b, p);
    } else {
      ReadToSpaceResume(d, a, b, p);
    }
  }

  lemma ReadToColonInside(d: Hts, a: seq<byte>, b: seq<byte>, p: nat)
    requires p < |a| && d.parseState == ReadToColon && Span(a, p, |a| - p, Name) < |a|
    ensures ReadToColonArm(d, a + b, p) == ReadToColonArm(d, a, p)
  {
    TokenInside(d, a, b, p, Name);
    var q := Span(a, p, |a| - p, Name);
    assert (a + b)[q] == a[q];
  }

  /** A header name that reaches the end of `a` is read on into `b`. */
  lemma ReadToColonResume(d: Hts, a: seq<byte>, b: seq<byte>, p: nat)
    requires p < |a| && 0 < |b| && d.parseState == ReadToColon && Span(a, p, |a| - p, Name) == |a|
    requires TokenSoFar(d, a, p).wlen <= 4096
    ensures ReadToColonArm(d, a, p) == At(TokenSoFar(d, a, p), |a|)
    ensures ReadToColonArm(d, a + b, p) == Shifted(ReadToColonArm(TokenSoFar(d, a, p), b, 0), |a|)
  {
    TokenAcross(d, a, b, p, Name);
    var q2 := Span(b, 0, |b| - 0, Name);
    if q2 < |b| {
      assert (a + b)[|a| + q2] == b[q2];
    }
  }

  /** A header name over the limit at the end of `a`, read further in `a + b`. */
  lemma ReadToColonOver(d: Hts, a: seq<byte>, b: seq<byte>, p: nat)
    requires p < |a| && d.parseState == ReadToColon && Span(a, p, |a| - p, Name) == |a|
    requires TokenSoFar(d, a, p).wlen > 4096
    ensures ReadToColonArm(d, a, p) == At(TokenSoFar(d, a, p).(parseState := Fatal), |a|)
    ensures var j := ReadToColonArm(d, a + b, p);
      && j.p >= |a| && j.d.parseState == Fatal && j.d.wlen >= TokenSoFar(d, a, p).wlen
      && j.d.(wlen := TokenSoFar(d, a, p).wlen) == TokenSoFar(d, a, p).(parseState := Fatal)
  {
    TokenOver(d, a, b, p, Name);
  }

  lemma ReadToColonPrefix(d: Hts, a: seq<byte>, b: seq<byte>, p: nat)
    requires p < |a| && 0 < |b| && d.parseState == ReadToColon
    ensures StepAgrees(ReadToColonArm(d, a, p), ReadToColonArm(d, a + b, p), a, b)
  {
    if Span(a, p, |a| - p, Name) < |a| {
      ReadToColonInside(d, a, b, p);
    } else if TokenSoFar(d, a, p).wlen > 4096 {
      ReadToColonOver(d, a, b, p);
    } else {
      ReadToColonResume(d, a, b, p);
    }
  }

  lemma SkipSpcInside(d: Hts, a: seq<byte>, b: seq<byte>, p: nat)
    requires p < |a| && (d.parseState == SkipSpc || d.parseState == SkipSpcToEoln)
    requires Span(a, p, MAX_HTTP_HEADER_SIZE - d.headerSize, Blank(d.queryWords >= 8)) < |a|
    ensures SkipSpcArm(d, a + b, p) == SkipSpcArm(d, a, p)
  {
    SpanInside(a, b, p, MAX_HTTP_HEADER_SIZE - d.headerSize, Blank(d.queryWords >= 8));
  }

  lemma SpanInside(a: seq<byte>, b: seq<byte>, p: nat, room: int, kind: Run)
    requires p < |a| && Span(a, p, room, kind) < |a|
    ensures Span(a + b, p, room, kind) == Span(a, p, room, kind)
  {
    SpanPrefix(a, b, p, room, kind);
  }

  /** Blanks up to the end of `a` go on in `b`, with the header size carried. */
  lemma SkipSpcAcross(d: Hts, a: seq<byte>, b: seq<byte>, p: nat)
    requires p < |a| && (d.parseState == SkipSpc || d.parseState == SkipSpcToEoln)
    requires Span(a, p, MAX_HTTP_HEADER_SIZE - d.headerSize, Blank(d.queryWords >= 8)) == |a|
    ensures var d1 := d.(headerSize := d.headerSize + (|a| - p));
      Span(a + b, p, MAX_HTTP_HEADER_SIZE - d.headerSize, Blank(d.queryWords >= 8))
        == |a| + Span(b, 0, MAX_HTTP_HEADER_SIZE - d1.headerSize, Blank(d1.queryWords >= 8))
  {
    var room := MAX_HTTP_HEADER_SIZE - d.headerSize;
    SpanPrefix(a, b, p, room, Blank(d.queryWords >= 8));
    assert MAX_HTTP_HEADER_SIZE - (d.headerSize + (|a| - p)) == room - (|a| - p);
  }

  lemma SkipSpcResume(d: Hts, a: seq<byte>, b: seq<byte>, p: nat)
    requires p < |a| && 0 < |b| && (d.parseState == SkipSpc || d.parseState == SkipSpcToEoln)
    requires Span(a, p, MAX_HTTP_HEADER_SIZE - d.headerSize, Blank(d.queryWords >= 8)) == |a|
    requires d.headerSize + (|a| - p) < MAX_HTTP_HEADER_SIZE
    ensures SkipSpcArm(d, a, p) == At(d.(headerSize := d.headerSize + (|a| - p)), |a|)
    ensures SkipSpcArm(d, a + b, p) == Shifted(SkipSpcArm(d.(headerSize := d.headerSize + (|a| - p)), b, 0), |a|)
  {
    SkipSpcAcross(d, a, b, p);
    var d1 := d.(headerSize := d.headerSize + (|a| - p));
    var q2 := Span(b, 0, MAX_HTTP_HEADER_SIZE - d1.headerSize, Blank(d1.queryWords >= 8));
    if q2 < |b| {
      assert (a + b)[|a| + q2] == b[q2];
    }
  }

  lemma SkipSpcLimit(d: Hts, a: seq<byte>, b: seq<byte>, p: nat)
    requires p < |a| && (d.parseState == SkipSpc || d.parseState == SkipSpcToEoln)
    requires Span(a, p, MAX_HTTP_HEADER_SIZE - d.headerSize, Blank(d.queryWords >= 8)) == |a|
    requires d.headerSize + (|a| - p) >= MAX_HTTP_HEADER_SIZE
    ensures SkipSpcArm(d, a + b, p) == SkipSpcArm(d, a, p)
  {
    SkipSpcAcross(d, a, b, p);
  }

  lemma SkipSpcPrefix(d: Hts, a: seq<byte>, b: seq<byte>, p: nat)
    requires p < |a| && 0 < |b| && (d.parseState == SkipSpc || d.parseState == SkipSpcToEoln)
    ensures StepAgrees(SkipSpcArm(d, a, p), SkipSpcArm(d, a + b, p), a, b)
  {
    if Span(a, p, MAX_HTTP_HEADER_SIZE - d.headerSize, Blank(d.queryWords >= 8)) < |a| {
      SkipSpcInside(d, a, b, p);
    } else if d.headerSize + (|a| - p) >= MAX_HTTP_HEADER_SIZE {
      SkipSpcLimit(d, a, b, p);
    } else {
      SkipSpcResume(d, a, b, p);
    }
  }

  lemma ReadIntPrefix(d: Hts, a: seq<byte>, b: seq<byte>, p: nat)
    requires p < |a| && 0 < |b| && d.parseState == ReadInt
    ensures StepAgrees(ReadIntArm(d, a, p), ReadIntArm(d, a + b, p), a, b)
  {
    AccDigitsPrefix(a, b, p, d.dataSize);
  }

  lemma SkipToEolnLimit(d: Hts, a: seq<byte>, b: seq<byte>, p: nat)
    requires p < |a| && d.parseState == SkipToEoln
    requires Span(a, p, MAX_HTTP_HEADER_SIZE - d.headerSize, Text) == |a|
    requires d.headerSize + (|a| - p) >= MAX_HTTP_HEADER_SIZE
    ensures SkipToEolnArm(d, a + b, p) == SkipToEolnArm(d, a, p)
  {
    var room := MAX_HTTP_HEADER_SIZE - d.headerSize;
    SpanPrefix(a, b, p, room, Text);
    assert Span(a + b, p, room, Text) == |a|;
  }

  /** A line skipped up to the end of `a` goes on being skipped in `b`. */
  lemma SkipToEolnResume(d: Hts, a: seq<byte>, b: seq<byte>, p: nat)
    requires p < |a| && 0 < |b| && d.parseState == SkipToEoln
    requires Span(a, p, MAX_HTTP_HEADER_SIZE - d.headerSize, Text) == |a|
    requires d.headerSize + (|a| - p) < MAX_HTTP_HEADER_SIZE
    ensures SkipToEolnArm(d, a, p) == At(d.(headerSize := d.headerSize + (|a| - p)), |a|)
    ensures SkipToEolnArm(d, a + b, p) == Shifted(SkipToEolnArm(d.(headerSize := d.headerSize + (|a| - p)), b, 0), |a|)
  {
    var room := MAX_HTTP_HEADER_SIZE - d.headerSize;
    SpanPrefix(a, b, p, room, Text);
    var d1 := d.(headerSize := d.headerSize + (|a| - p));
    assert MAX_HTTP_HEADER_SIZE - d1.headerSize == room - (|a| - p);
    var q2 := Span(b, 0, MAX_HTTP_HEADER_SIZE - d1.headerSize, Text);
    assert Span(a + b, p, room, Text) == |a| + q2;
    var d2 := d1.(headerSize := d1.headerSize + (q2 - 0));
    if d2.headerSize < MAX_HTTP_HEADER_SIZE && q2 < |b| {
      StepSuffix(d2.(parseState := Eoln), a, b, q2);
    }
  }

  lemma SkipToEolnPrefix(d: Hts, a: seq<byte>, b: seq<byte>, p: nat)
    requires p < |a| && 0 < |b| && d.parseState == SkipToEoln
    ensures StepAgrees(SkipToEolnArm(d, a, p), SkipToEolnArm(d, a + b, p), a, b)
    decreases 12 - Order(d.parseState), 0
  {
    var room := MAX_HTTP_HEADER_SIZE - d.headerSize;
    var q := Span(a, p, room, Text);
    if q < |a| {
      SpanPrefix(a, b, p, room, Text);
      assert Span(a + b, p, room, Text) == q;
      var d1 := d.(headerSize := d.headerSize + (q - p));
      if d1.headerSize < MAX_HTTP_HEADER_SIZE {
        StepPrefix(d1.(parseState := Eoln), a, b, q);
      }
    } else if d.headerSize + (|a| - p) >= MAX_HTTP_HEADER_SIZE {
      SkipToEolnLimit(d, a, b, p);
    } else {
      SkipToEolnResume(d, a, b, p);
    }
  }

  lemma EolnPrefix(d: Hts, a: seq<byte>, b: seq<byte>, p: nat)
    requires p <= |a| && 0 < |b| && d.parseState == Eoln
    ensures StepAgrees(EolnArm(d, a, p), EolnArm(d, a + b, p), a, b)
    decreases 12 - Order(d.parseState), 0
  {
    if p == |a| {
      EolnSuffix(d, a, b, 0);
    } else {
      assert (a + b)[p] == a[p];
      if a[p] == CR {
        StepPrefix(d.(headerSize := d.headerSize + 1, parseState := WantLf), a, b, p + 1);
      } else {
        StepPrefix(d.(parseState := WantLf), a, b, p);
      }
    }
  }

  lemma WantLfPrefix(d: Hts, a: seq<byte>, b: seq<byte>, p: nat)
    requires p <= |a| && 0 < |b| && d.parseState == WantLf
    ensures StepAgrees(WantLfArm(d, a, p), WantLfArm(d, a + b, p), a, b)
    decreases 12 - Order(d.parseState), 0
  {
    if p == |a| {
      WantLfSuffix(d, a, b, 0);
    } else {
      assert (a + b)[p] == a[p];
      var w := d.queryWords + 1;
      var d1 := d.(queryWords := if w < 8 then 8 else w);
      if !(w < 8 && QF_ERROR in d1.queryFlags) && d1.httpVer > HTTP_V09 && a[p] == LF {
        StepPrefix(d1.(headerSize := d1.headerSize + 1, parseState := LineStart), a, b, p + 1);
      }
    }
  }

  lemma LineStartPrefix(d: Hts, a: seq<byte>, b: seq<byte>, p: nat)
    requires p <= |a| && 0 < |b| && d.parseState == LineStart
    ensures StepAgrees(LineStartArm(d, a, p), LineStartArm(d, a + b, p), a, b)
  {
    if p == |a| {
      LineStartSuffix(d, a, b, 0);
    } else {
      assert (a + b)[p] == a[p];
    }
  }

  lemma WantLastLfPrefix(d: Hts, a: seq<byte>, b: seq<byte>, p: nat)
    requires p < |a| && d.parseState == WantLastLf
    ensures WantLastLfArm(d, a + b, p) == WantLastLfArm(d, a, p)
  {
    assert (a + b)[p] == a[p];
  }

  /** One iteration of the inner loop from a position in `a`, over `a` and over `a + b`. */
  lemma StepPrefix(d: Hts, a: seq<byte>, b: seq<byte>, p: nat)
    requires Enterable(d, a, p) && 0 < |b|
    ensures Enterable(d, a + b, p)
    ensures StepAgrees(Step(d, a, p), Step(d, a + b, p), a, b)
    decreases 12 - Order(d.parseState), 1
  {
    match d.parseState
    case Start => StepPrefix(Reset(d), a, b, p);
    case ReadToSpace => ReadToSpacePrefix(d, a, b, p);
    case SkipSpc => SkipSpcPrefix(d, a, b, p);
    case SkipSpcToEoln => SkipSpcPrefix(d, a, b, p);
    case ReadToColon => ReadToColonPrefix(d, a, b, p);
    case ReadInt => ReadIntPrefix(d, a, b, p);
    case SkipToEoln => SkipToEolnPrefix(d, a, b, p);
    case Eoln => EolnPrefix(d, a, b, p);
    case WantLf => WantLfPrefix(d, a, b, p);
    case LineStart => LineStartPrefix(d, a, b, p);
    case WantLastLf => WantLastLfPrefix(d, a, b, p);
    case Done =>
    case Fatal =>
  }

  // The inner loop over `a` then over `b`, and over `a + b`.

  /** `htqp_fatal` ends the header where it is entered, unless the block is over. */
  lemma RunBlockFatal(x: Hts, blk: seq<byte>, q: nat)
    requires q <= |blk| && x.parseState == Fatal
    ensures q == |blk| ==> RunBlock(x, blk, q) == At(x, q)
    ensures q < |blk| ==>
      RunBlock(x, blk, q) == At(x.(queryFlags := x.queryFlags + {QF_ERROR}, parseState := Done), q)
  {
    if q < |blk| {
      RunBlockGoes(x, blk, q);
      RunBlockStops(x.(queryFlags := x.queryFlags + {QF_ERROR}, parseState := Done), blk, q);
    }
  }

  /** From the end of `a`: the loop over `a` stops, the one over `a + b` goes on in `b`. */
  lemma SplitAtEnd(d: Hts, a: seq<byte>, b: seq<byte>)
    requires 0 < |b| && d.parseState != Closed && d.parseState != Done
    ensures RunBlock(d, a, |a|) == At(d, |a|)
    ensures RunBlock(d, a + b, |a|) == Shifted(RunBlock(d, b, 0), |a|)
    ensures TokenOverLimit(d) ==> OverLimitAgrees(d, RunBlock(d, a + b, |a|), |a|)
  {
    RunBlockStops(d, a, |a|);
    TailOf(a, b);
    RunBlockTail(d, a + b, b, |a|, 0, |a|);
    if d.parseState == Fatal {
      RunBlockFatal(d, b, 0);
    }
  }

  /** The iteration over `a + b` went on into `b`: the loop continues as the one over `b`. */
  lemma SplitResume(x: Hts, a: seq<byte>, b: seq<byte>, j: At)
    requires 0 < |b| && x.parseState !in {Closed, Done, Fatal}
    requires j.d.parseState != Closed && j.p <= |a + b|
    requires j == Shifted(Step(x, b, 0), |a|)
    ensures RunBlock(j.d, a + b, j.p) == Shifted(RunBlock(x, b, 0), |a|)
  {
    var t := Step(x, b, 0);
    RunBlockGoes(x, b, 0);
    TailOf(a, b);
    RunBlockTail(t.d, a + b, b, |a|, t.p, j.p);
  }

  /** The token over the limit, read further in `a + b`, ends the header as bad. */
  lemma SplitLate(x: Hts, a: seq<byte>, b: seq<byte>, j: At)
    requires j.d.parseState == Fatal && |a| <= j.p <= |a + b|
    requires j.d.wlen >= x.wlen && j.d.(wlen := x.wlen) == x
    ensures OverLimitAgrees(x, RunBlock(j.d, a + b, j.p), |a|)
  {
    RunBlockFatal(j.d, a + b, j.p);
  }

  /**
   * The inner loop over `a` and then, from where it stopped, over `b` is the
   * inner loop over `a + b`, positions in `b` shifted by `|a|`; a token over
   * the 4096-byte limit at the end of `a` is the one exception, and there
   * both runs go fatal and differ only as `OverLimitAgrees` allows.
   */
  lemma {:induction false} RunBlockSplit(d: Hts, a: seq<byte>, b: seq<byte>, p: nat)
    requires p <= |a| && d.parseState != Closed
    ensures var r1 := RunBlock(d, a, p);
      var j := RunBlock(d, a + b, p);
      && (r1.d.parseState == Done ==> j == r1)
      && (r1.d.parseState != Done && !TokenOverLimit(r1.d) ==> j == Shifted(RunBlock(r1.d, b, 0), |a|))
      && (r1.d.parseState != Done && TokenOverLimit(r1.d) ==> OverLimitAgrees(r1.d, j, |a|))
    decreases |a| - p, Rank(d)
  {
    if |b| == 0 {
      assert a + b == a;
      var r1 := RunBlock(d, a, p);
      RunBlockStops(r1.d, b, 0);
    } else if d.parseState == Done {
      RunBlockStops(d, a, p);
      RunBlockStops(d, a + b, p);
    } else if p == |a| {
      SplitAtEnd(d, a, b);
    } else {
      var s := Step(d, a, p);
      var j := Step(d, a + b, p);
      StepPrefix(d, a, b, p);
      StepMoves(d, a, p);
      RunBlockGoes(d, a, p);
      RunBlockGoes(d, a + b, p);
      if j == s {
        RunBlockSplit(s.d, a, b, s.p);
      } else if s.p == |a| && s.d.parseState !in {Closed, Done, Fatal} {
        RunBlockStops(s.d, a, |a|);
        SplitResume(s.d, a, b, j);
      } else {
        RunBlockStops(s.d, a, |a|);
        SplitLate(s.d, a, b, j);
      }
    }
  }
}
