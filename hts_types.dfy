// Constants, enumerations and flag bits of the HTTP server's per-connection
// record (net/net-http-server.h), and the byte-level helpers shared by the
// parser, the response writer and the date codec.
module HtsTypes {

  /** An octet of the input or output stream. */
  newtype byte = x: int | 0 <= x < 256

  /** ASCII encoding of a literal; every literal used here is 7-bit. */
  function Ascii(s: string): (r: seq<byte>)
    ensures |r| == |s|
    ensures forall i :: 0 <= i < |s| ==> r[i] as int == s[i] as int % 256
  {
    seq(|s|, i requires 0 <= i < |s| => (s[i] as int % 256) as byte)
  }

  /** Appending to a buffer in two steps or in one gives the same bytes. */
  lemma AppendAssoc(a: seq<byte>, b: seq<byte>, c: seq<byte>)
    ensures (a + b) + c == a + (b + c)
  {
  }

  /** A printable ASCII character other than ':' (the text of fixed header lines). */
  type PlainChar = c: char | ' ' <= c <= '~' && c != ':' witness 'a'

  lemma PlainBytes(s: seq<PlainChar>)
    ensures forall i :: 0 <= i < |s| ==> 32 <= Ascii(s)[i] <= 126 && Ascii(s)[i] != 58
  {
  }

  // Character codes used by the parser.
  const HT: byte := 9
  const LF: byte := 10
  const CR: byte := 13
  const SP: byte := 32
  const COLON: byte := 58

  /** Upper bound on the header block of one request. */
  const MAX_HTTP_HEADER_SIZE: int := 16384

  /** Values of `http_ver`; 0 means "not yet known". */
  const HTTP_V09: int := 9
  const HTTP_V10: int := 0x100
  const HTTP_V11: int := 0x101

  /** C's 32-bit signed wrap-around of an `int` result. */
  function Wrap32(x: int): (r: int)
    ensures -0x8000_0000 <= r < 0x8000_0000
    ensures -0x8000_0000 <= x < 0x8000_0000 ==> r == x
  {
    (x + 0x8000_0000) % 0x1_0000_0000 - 0x8000_0000
  }

  /**
   * The bits of `query_flags` (net/net-http-server.h:80-87). The server
   * only ever sets, clears and tests these declared bits, one or two at a
   * time, so the flags word is modelled as the set of bits that are on.
   */
  datatype QueryFlag =
    | FlagError | FlagHost | FlagDataSize | FlagConnection
    | FlagTransferEncoding | FlagTransferEncodingChunked | FlagKeepAlive | FlagExtraHeaders
  {
    /** The bit's value in the C flags word. */
    function Bit(): (b: int)
      ensures b in {1, 2, 4, 8, 16, 32, 0x100, 0x200}
    {
      match this
      case FlagError => 1
      case FlagHost => 2
      case FlagDataSize => 4
      case FlagConnection => 8
      case FlagTransferEncoding => 16
      case FlagTransferEncodingChunked => 32
      case FlagKeepAlive => 0x100
      case FlagExtraHeaders => 0x200
    }
  }

  type QueryFlags = set<QueryFlag>

  const QF_ERROR: QueryFlag := FlagError
  const QF_HOST: QueryFlag := FlagHost
  const QF_DATASIZE: QueryFlag := FlagDataSize
  const QF_CONNECTION: QueryFlag := FlagConnection
  const QF_TRANSFER_ENCODING: QueryFlag := FlagTransferEncoding
  const QF_TRANSFER_ENCODING_CHUNKED: QueryFlag := FlagTransferEncodingChunked
  const QF_KEEPALIVE: QueryFlag := FlagKeepAlive
  const QF_EXTRA_HEADERS: QueryFlag := FlagExtraHeaders

  /**
   * Distinct flags are distinct bits, so a set of flags stands for exactly
   * one flags word and setting or clearing one leaves the others alone.
   */
  lemma BitsDistinct(f: QueryFlag, g: QueryFlag)
    ensures f.Bit() == g.Bit() <==> f == g
  {
  }

  /** `enum hts_query_type`; `None` is 0, the value of a zeroed record. */
  datatype QueryType = None | Head | Get | Post | Options | Error | Empty
  {
    function Code(): (c: int)
      ensures 0 <= c <= 6
      ensures c == 0 <==> this == None
    {
      match this
      case None => 0
      case Head => 1
      case Get => 2
      case Post => 3
      case Options => 4
      case Error => 5
      case Empty => 6
    }

    predicate IsMethod() { this in {Head, Get, Post, Options} }
  }

  /**
   * `enum http_query_parse_state`, plus `Closed` for the value -1 that the
   * parser stores when it closes the connection.
   */
  datatype ParseState =
    | Start | ReadToSpace | ReadToColon | ReadInt | SkipSpc | SkipToEoln
    | SkipSpcToEoln | Eoln | WantLf | WantLastLf | LineStart | Fatal | Done
    | Closed
  {
    function Code(): int
    {
      match this
      case Start => 0
      case ReadToSpace => 1
      case ReadToColon => 2
      case ReadInt => 3
      case SkipSpc => 4
      case SkipToEoln => 5
      case SkipSpcToEoln => 6
      case Eoln => 7
      case WantLf => 8
      case WantLastLf => 9
      case LineStart => 10
      case Fatal => 11
      case Done => 12
      case Closed => -1
    }
  }

  /**
   * Decimal rendering of a natural number, as printf's "%d" writes it.
   */
  function Decimal(n: nat): (r: seq<byte>)
    ensures 1 <= |r|
    ensures n < 10 ==> |r| == 1
    ensures 10 <= n < 100 ==> |r| == 2
    ensures 100 <= n < 1000 ==> |r| == 3
    ensures 1000 <= n < 10000 ==> |r| == 4
    ensures forall i :: 0 <= i < |r| ==> IsDigit(r[i])
    decreases n
  {
    if n < 10 then [(48 + n) as byte] else Decimal(n / 10) + [(48 + n % 10) as byte]
  }

  /** printf's "%.2d": at least two digits, zero-padded. */
  function Pad2(n: nat): (r: seq<byte>)
    ensures 2 <= |r|
    ensures n < 100 ==> |r| == 2
    ensures forall i :: 0 <= i < |r| ==> IsDigit(r[i])
  {
    if n < 10 then [48 as byte] + Decimal(n) else Decimal(n)
  }

  predicate IsDigit(b: byte) { 48 <= b <= 57 }

  /** Value of a run of decimal digits. */
  function DigitsValue(s: seq<byte>): nat
    requires forall i :: 0 <= i < |s| ==> IsDigit(s[i])
  {
    if s == [] then 0
    else
      assert IsDigit(s[|s| - 1]);
      DigitsValue(s[..|s| - 1]) * 10 + (s[|s| - 1] as int - 48)
  }

  lemma {:induction false} DecimalValue(n: nat)
    ensures DigitsValue(Decimal(n)) == n
    decreases n
  {
    if n >= 10 {
      DecimalValue(n / 10);
      var s := Decimal(n);
      assert s[..|s| - 1] == Decimal(n / 10);
    }
  }

  lemma Pad2Value(n: nat)
    ensures DigitsValue(Pad2(n)) == n
  {
    DecimalValue(n);
    if n < 10 {
      var s := Pad2(n);
      assert s[..|s| - 1] == [48 as byte];
      assert DigitsValue([48 as byte]) == 0 by {
        assert ([48 as byte])[..0] == [];
      }
    }
  }

  /** ASCII lower-casing, as `tolower` in the C locale. */
  function Lower(b: byte): byte
  {
    if 65 <= b <= 90 then b + 32 else b
  }

  /**
   * `strncasecmp(a, b + off, n) == 0`: the first `n` bytes of `a` agree up
   * to case with the `n` bytes of `b` from `off`, where a NUL common to both
   * ends the comparison early.
   */
  function CaseEqN(a: seq<byte>, b: seq<byte>, off: nat, n: nat): bool
    requires n <= |a| && off + n <= |b|
  {
    CaseCmp(a, b, off, 0, n)
  }

  /** The comparison loop of `strncasecmp` from position `i`. */
  function CaseCmp(a: seq<byte>, b: seq<byte>, off: nat, i: nat, n: nat): bool
    requires i <= n <= |a| && off + n <= |b|
    decreases n - i
  {
    if i == n then true
    else if Lower(a[i]) != Lower(b[off + i]) then false
    else if a[i] == 0 then true
    else CaseCmp(a, b, off, i + 1, n)
  }

  /** Equality up to case of `a[..n]` and `b[off..off + n]`, position by position. */
  predicate CaseAgree(a: seq<byte>, b: seq<byte>, off: nat, n: nat)
    requires n <= |a| && off + n <= |b|
  {
    forall i :: 0 <= i < n ==> Lower(a[i]) == Lower(b[off + i])
  }

  lemma {:induction false} CaseCmpAgree(a: seq<byte>, b: seq<byte>, off: nat, i: nat, n: nat)
    requires i <= n <= |a| && off + n <= |b|
    ensures CaseAgree(a, b, off, n) ==> CaseCmp(a, b, off, i, n)
    ensures (forall j :: i <= j < n ==> a[j] != 0) && CaseCmp(a, b, off, i, n) ==>
      forall j :: i <= j < n ==> Lower(a[j]) == Lower(b[off + j])
    decreases n - i
  {
    if i < n {
      CaseCmpAgree(a, b, off, i + 1, n);
    }
  }

  /**
   * Without a NUL among the compared bytes of `a`, `strncasecmp` decides
   * exactly equality up to case; a NUL only shortens the comparison.
   */
  lemma CaseEqNNoNul(a: seq<byte>, b: seq<byte>, off: nat, n: nat)
    requires n <= |a| && off + n <= |b|
    ensures CaseAgree(a, b, off, n) ==> CaseEqN(a, b, off, n)
    ensures (forall j :: 0 <= j < n ==> a[j] != 0) ==>
      (CaseEqN(a, b, off, n) <==> CaseAgree(a, b, off, n))
  {
    CaseCmpAgree(a, b, off, 0, n);
  }
}
