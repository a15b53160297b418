// The per-connection record `struct hts_data` (net/net-http-server.h:45-67)
// as a value, its reset at the start of every request, the 16-byte word
// buffer, and the byte classes the parser's scanning loops test.
module HtsRecord {
  import opened HtsTypes

  /** The `word[16]` buffer: the first bytes of the token being read. */
  type Word = w: seq<byte> | |w| == 16 witness seq(16, i => 0)

  /** The buffer as `memset` leaves it. */
  function ZeroWord(): (w: Word)
    ensures forall i :: 0 <= i < 16 ==> w[i] == 0
  {
    seq(16, i => 0)
  }

  /**
   * `struct hts_data`, field by field, in declaration order. `extra` is an
   * opaque pointer (0 for NULL); `parseState` is `Closed` for the -1 stored
   * when the connection is closed.
   */
  datatype Hts = Hts(
    queryType: QueryType, queryFlags: QueryFlags, queryWords: int, headerSize: int,
    firstLineSize: int, dataSize: int, hostOffset: int, hostSize: int,
    uriOffset: int, uriSize: int, httpVer: int, wlen: int, word: Word,
    extra: nat, extraInt: int, extraInt2: int, extraInt3: int, extraInt4: int,
    extraDouble: real, extraDouble2: real, parseState: ParseState, querySeqno: int)

  /**
   * `memset(D, 0, offsetof(struct hts_data, query_seqno))`: `query_seqno` is
   * the last field, so every other field is zeroed (parse state 0 is
   * `htqp_start`, query type 0 is `htqt_none`).
   */
  function Cleared(seqno: int): (r: Hts)
    ensures r.querySeqno == seqno && r.queryType.Code() == 0 && r.parseState.Code() == 0
  {
    Hts(None, {}, 0, 0, 0, 0, 0, 0, 0, 0, 0, 0, ZeroWord(), 0, 0, 0, 0, 0, 0.0, 0.0,
        Start, seqno)
  }

  /**
   * The `htqp_start` arm up to its fall-through: zero the record, count the
   * query, no body length yet (-1), and go on reading the first token.
   */
  function Reset(d: Hts): Hts
  {
    Cleared(d.querySeqno).(querySeqno := Wrap32(d.querySeqno + 1), queryType := None,
                           dataSize := -1, parseState := ReadToSpace)
  }

  /**
   * Nothing of the previous request survives a reset except the query
   * counter, which moves on (with 32-bit wrap-around) to a new value.
   */
  lemma ResetForgets(d: Hts, e: Hts)
    requires -0x8000_0000 <= d.querySeqno < 0x8000_0000
    requires -0x8000_0000 <= e.querySeqno < 0x8000_0000
    ensures Reset(d).querySeqno != d.querySeqno
    ensures Reset(d) == Reset(e) <==> d.querySeqno == e.querySeqno
  {
    if d.querySeqno != e.querySeqno {
      assert Reset(d).querySeqno != Reset(e).querySeqno;
    }
  }

  /**
   * The word buffer after the token bytes `s` follow the `wlen` bytes of the
   * token already read: byte `k` of the token lands at index `k` while that
   * index is below 15; index 15 is never written. (`wlen` is never
   * negative; a byte is stored only at an index inside the buffer.)
   */
  function Stored(w: Word, wlen: int, s: seq<byte>): Word
  {
    seq(16, i requires 0 <= i < 16 => if wlen <= i < 15 && i - wlen < |s| then s[i - wlen] else w[i])
  }

  /**
   * However a token is cut into pieces (block boundaries), storing the pieces
   * one after the other stores the whole token.
   */
  lemma StoredSplit(w: Word, n: int, a: seq<byte>, b: seq<byte>)
    ensures Stored(Stored(w, n, a), n + |a|, b) == Stored(w, n, a + b)
  {
    var l := Stored(Stored(w, n, a), n + |a|, b);
    var r := Stored(w, n, a + b);
    forall i | 0 <= i < 16
      ensures l[i] == r[i]
    {
      if n <= i < 15 && i - n < |a| {
        assert (a + b)[i - n] == a[i - n];
      } else if n + |a| <= i < 15 && i - n - |a| < |b| {
        assert (a + b)[i - n] == b[i - n - |a|];
      }
    }
  }

  /**
   * A token stored into a fresh buffer: its first 15 bytes are there,
   * whatever its length, and the last byte of the buffer is untouched.
   */
  lemma StoredToken(w: Word, tok: seq<byte>)
    ensures forall i :: 0 <= i < |tok| && i < 15 ==> Stored(w, 0, tok)[i] == tok[i]
    ensures Stored(w, 0, tok)[15] == w[15]
    ensures |tok| <= 15 ==> Stored(w, 0, tok)[..|tok|] == tok
  {
  }

  /**
   * One more byte of a token: it lands at index `wlen` while that is below
   * 15 (`if (D->wlen < 15) D->word[D->wlen] = *ptr`), and is dropped after.
   */
  lemma StoredNext(w: Word, n: int, s: seq<byte>, b: byte)
    ensures Stored(w, n, s + [b]) ==
      if 0 <= n + |s| < 15 then Stored(w, n, s)[n + |s| := b] else Stored(w, n, s)
  {
    StoredSplit(w, n, s, [b]);
  }

  /** The value of a byte as a C `char`, which is signed on this platform. */
  function Signed(b: byte): (c: int)
    ensures -128 <= c < 128
    ensures c < 0 <==> b >= 128
  {
    if b < 128 then b as int else b as int - 256
  }

  /**
   * `(unsigned) *ptr > ' '`, the token test of `htqp_readtospace`: a negative
   * `char` converts to a large unsigned value, so bytes from 128 up belong
   * to tokens.
   */
  predicate TokenByte(b: byte)
  {
    Signed(b) % 0x1_0000_0000 > 32
  }

  /**
   * `*ptr != ':' && *ptr > ' '`, the name test of `htqp_readtocolon`, on a
   * signed `char`: bytes from 128 up end a header name.
   */
  predicate NameByte(b: byte)
  {
    Signed(b) != 58 && Signed(b) > 32
  }

  lemma ByteClasses(b: byte)
    ensures TokenByte(b) <==> b > SP
    ensures NameByte(b) <==> SP < b < 128 && b != COLON
  {
    if b >= 128 {
      assert Signed(b) % 0x1_0000_0000 == b as int - 256 + 0x1_0000_0000;
    }
  }
}
