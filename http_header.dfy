// `get_http_header`: find a header field by name in a block of request
// headers and copy its value, without leading or trailing blanks, into a
// caller-supplied buffer of `b_len` bytes.
//
// `Lookup` follows the scan of the C code line by line; `GetHttpHeader`
// is the pointer-loop version over the caller's buffer, proved against it.
module HttpHeader {
  import opened HtsTypes

  /** Outcome of a lookup: the trimmed field value, or nothing. */
  datatype Lookup = NotFound | Found(value: seq<byte>)

  predicate Blank(b: byte) { b == SP || b == HT }

  /** First index at or after `p` holding ':' or '\n' (or the end). */
  function NameEnd(h: seq<byte>, p: nat): (k: nat)
    requires p <= |h|
    ensures p <= k <= |h|
    decreases |h| - p
  {
    if p == |h| || h[p] == COLON || h[p] == LF then p else NameEnd(h, p + 1)
  }

  /** First index at or after `p` holding '\n' (or the end). */
  function LineEnd(h: seq<byte>, p: nat): (k: nat)
    requires p <= |h|
    ensures p <= k <= |h|
    decreases |h| - p
  {
    if p == |h| || h[p] == LF then p else LineEnd(h, p + 1)
  }

  /** First index at or after `p` that is not a space or tab (or the end). */
  function SkipBlank(h: seq<byte>, p: nat): (k: nat)
    requires p <= |h|
    ensures p <= k <= |h|
    decreases |h| - p
  {
    if p == |h| || !Blank(h[p]) then p else SkipBlank(h, p + 1)
  }

  /** First index at or after `p` holding '\r' or '\n' (or the end). */
  function ValueEnd(h: seq<byte>, p: nat): (k: nat)
    requires p <= |h|
    ensures p <= k <= |h|
    decreases |h| - p
  {
    if p == |h| || h[p] == CR || h[p] == LF then p else ValueEnd(h, p + 1)
  }

  /** Move `e` back over trailing spaces and tabs, not below `s`. */
  function TrimEnd(h: seq<byte>, s: nat, e: nat): (k: nat)
    requires s <= e <= |h|
    ensures s <= k <= e
    decreases e
  {
    if e > s && Blank(h[e - 1]) then TrimEnd(h, s, e - 1) else e
  }

  // What each scan finds: the first index at or after its start whose byte
  // stops it, every byte before it passing.

  lemma {:induction false} NameEndFacts(h: seq<byte>, p: nat)
    requires p <= |h|
    ensures var k := NameEnd(h, p);
      && (forall i :: p <= i < k ==> h[i] != COLON && h[i] != LF)
      && (k < |h| ==> h[k] == COLON || h[k] == LF)
    decreases |h| - p
  {
    if p < |h| && h[p] != COLON && h[p] != LF {
      NameEndFacts(h, p + 1);
    }
  }

  lemma {:induction false} LineEndFacts(h: seq<byte>, p: nat)
    requires p <= |h|
    ensures var k := LineEnd(h, p);
      && (forall i :: p <= i < k ==> h[i] != LF)
      && (k < |h| ==> h[k] == LF)
    decreases |h| - p
  {
    if p < |h| && h[p] != LF {
      LineEndFacts(h, p + 1);
    }
  }

  lemma {:induction false} SkipBlankFacts(h: seq<byte>, p: nat)
    requires p <= |h|
    ensures var k := SkipBlank(h, p);
      && (forall i :: p <= i < k ==> Blank(h[i]))
      && (k < |h| ==> !Blank(h[k]))
    decreases |h| - p
  {
    if p < |h| && Blank(h[p]) {
      SkipBlankFacts(h, p + 1);
    }
  }

  lemma {:induction false} ValueEndFacts(h: seq<byte>, p: nat)
    requires p <= |h|
    ensures var k := ValueEnd(h, p);
      && (forall i :: p <= i < k ==> h[i] != CR && h[i] != LF)
      && (k < |h| ==> h[k] == CR || h[k] == LF)
    decreases |h| - p
  {
    if p < |h| && h[p] != CR && h[p] != LF {
      ValueEndFacts(h, p + 1);
    }
  }

  lemma {:induction false} TrimEndFacts(h: seq<byte>, s: nat, e: nat)
    requires s <= e <= |h|
    ensures var k := TrimEnd(h, s, e);
      && (forall i :: k <= i < e ==> Blank(h[i]))
      && (k > s ==> !Blank(h[k - 1]))
    decreases e
  {
    if e > s && Blank(h[e - 1]) {
      TrimEndFacts(h, s, e - 1);
    }
  }

  /** The value of the field whose ':' sits just before `k`. */
  function FieldValue(h: seq<byte>, k: nat): seq<byte>
    requires k <= |h|
  {
    var s := SkipBlank(h, k);
    h[s..TrimEnd(h, s, ValueEnd(h, s))]
  }

  /**
   * Scan from line start `p`: a line whose name before ':' has exactly
   * `n` bytes and equals `name` up to case yields its value; any other
   * line is skipped through its '\n'. A line that reaches the end of the
   * block with neither ':' nor '\n' ends the search.
   */
  function Find(h: seq<byte>, name: seq<byte>, n: nat, p: nat): Lookup
    requires p <= |h| && n <= |name|
    decreases |h| - p
  {
    if p == |h| then NotFound
    else
      var k := NameEnd(h, p);
      if k == |h| then NotFound
      else if h[k] == COLON && n == k - p && CaseEqN(name, h, p, n) then
        Found(FieldValue(h, k + 1))
      else
        Find(h, name, n, NextLine(h, if h[k] == COLON then k + 1 else k))
  }

  /** Start of the line after the one holding index `k` (or the end). */
  function NextLine(h: seq<byte>, k: nat): (p: nat)
    requires k <= |h|
    ensures k < p <= |h| || p == k == |h|
  {
    var e := LineEnd(h, k);
    if e < |h| then e + 1 else e
  }

  /** One step of `Find` past a line that does not match. */
  lemma FindNext(h: seq<byte>, name: seq<byte>, n: nat, p: nat, k: nat, e: nat)
    requires p < |h| && n <= |name|
    requires k == NameEnd(h, p) && k < |h|
    requires !(h[k] == COLON && n == k - p && CaseEqN(name, h, p, n))
    requires e == NextLine(h, if h[k] == COLON then k + 1 else k)
    ensures Find(h, name, n, p) == Find(h, name, n, e)
  {
  }

  /** `Find` at a line that runs to the end with neither ':' nor '\n'. */
  lemma FindEnd(h: seq<byte>, name: seq<byte>, n: nat, p: nat)
    requires p <= |h| && n <= |name| && NameEnd(h, p) == |h|
    ensures Find(h, name, n, p) == NotFound
  {
  }

  /** `Find` at a line whose name matches. */
  lemma FindHit(h: seq<byte>, name: seq<byte>, n: nat, p: nat, k: nat)
    requires p < |h| && n <= |name|
    requires k == NameEnd(h, p) && k < |h|
    requires h[k] == COLON && n == k - p && CaseEqN(name, h, p, n)
    ensures Find(h, name, n, p) == Found(FieldValue(h, k + 1))
  {
  }

  /** `get_http_header(h, |h|, buffer, b_len, name, n)` as a lookup. */
  function HeaderValue(h: seq<byte>, name: seq<byte>, n: nat): Lookup
    requires n <= |name|
  {
    Find(h, name, n, 0)
  }

  /** An empty string in the buffer and -1: the outcome of a failed lookup. */
  method ClearOut(buffer: array<byte>) returns (r: int)
    requires 1 <= buffer.Length
    modifies buffer
    ensures Delivered(NotFound, r, buffer[..], old(buffer[..]))
  {
    buffer[0] := 0;
    assert buffer[..][1..] == old(buffer[..])[1..];
    r := -1;
  }

  /** The scan for the ':' or '\n' that ends a field name. */
  method ScanName(h: seq<byte>, p: nat) returns (k: nat)
    requires p <= |h|
    ensures k == NameEnd(h, p)
  {
    k := p;
    while k < |h| && h[k] != COLON && h[k] != LF
      invariant p <= k <= |h|
      invariant NameEnd(h, p) == NameEnd(h, k)
      decreases |h| - k
    {
      k := k + 1;
    }
  }

  /** The scan to the '\n' that ends a line, and past it. */
  method SkipLine(h: seq<byte>, p: nat) returns (k: nat)
    requires p <= |h|
    ensures k == NextLine(h, p)
  {
    k := p;
    while k < |h| && h[k] != LF
      invariant p <= k <= |h|
      invariant LineEnd(h, p) == LineEnd(h, k)
      decreases |h| - k
    {
      k := k + 1;
    }
    if k < |h| {
      k := k + 1;
    }
  }

  /** The value scan after a matching name: skip blanks, stop at CR/LF, trim. */
  method ScanValue(h: seq<byte>, k: nat) returns (s: nat, e: nat)
    requires k <= |h|
    ensures s <= e <= |h| && h[s..e] == FieldValue(h, k)
  {
    var where := k;
    while where < |h| && Blank(h[where])
      invariant k <= where <= |h|
      invariant SkipBlank(h, k) == SkipBlank(h, where)
      decreases |h| - where
    {
      where := where + 1;
    }
    s := where;
    while where < |h| && h[where] != CR && h[where] != LF
      invariant s <= where <= |h|
      invariant ValueEnd(h, s) == ValueEnd(h, where)
      decreases |h| - where
    {
      where := where + 1;
    }
    ghost var end := where;
    while where > s && Blank(h[where - 1])
      invariant s <= where <= end
      invariant TrimEnd(h, s, end) == TrimEnd(h, s, where)
      decreases where
    {
      where := where - 1;
    }
    e := where;
  }

  /**
   * The caller's buffer and the return value after a lookup with outcome
   * `res`: a found value is copied up to `b_len - 1` bytes and
   * NUL-terminated, and its length returned; otherwise the buffer holds an
   * empty string and the result is -1. Bytes past the terminator are kept.
   */
  predicate Delivered(res: Lookup, r: int, after: seq<byte>, before: seq<byte>)
  {
    && |after| == |before| >= 1
    && match res
       case NotFound =>
         r == -1 && after[0] == 0 && after[1..] == before[1..]
       case Found(v) =>
         && r == (if |v| < |before| - 1 then |v| else |before| - 1)
         && after[..r] == v[..r] && after[r] == 0
         && after[r + 1..] == before[r + 1..]
  }

  /**
   * Copy at most `buffer.Length - 1` bytes of `v` and NUL-terminate: the
   * `memcpy` and terminator of a successful lookup.
   */
  method CopyOut(buffer: array<byte>, v: seq<byte>) returns (r: nat)
    requires 1 <= buffer.Length
    modifies buffer
    ensures Delivered(Found(v), r, buffer[..], old(buffer[..]))
  {
    r := if |v| < buffer.Length - 1 then |v| else buffer.Length - 1;
    var i := 0;
    while i < r
      invariant 0 <= i <= r
      invariant forall j :: 0 <= j < i ==> buffer[j] == v[j]
      invariant forall j :: i <= j < buffer.Length ==> buffer[j] == old(buffer[j])
    {
      buffer[i] := v[i];
      i := i + 1;
    }
    buffer[r] := 0;
    assert buffer[..][..r] == v[..r];
    assert buffer[..][r + 1..] == old(buffer[..])[r + 1..];
  }

  /**
   * The outer loop of the C function: walk the lines until one names the
   * field, returning the index of its ':'.
   */
  method SearchName(h: seq<byte>, name: seq<byte>, n: nat) returns (found: bool, k: nat)
    requires n <= |name|
    ensures found ==> k < |h| && HeaderValue(h, name, n) == Found(FieldValue(h, k + 1))
    ensures !found ==> HeaderValue(h, name, n) == NotFound
  {
    var where := 0;
    while where < |h|
      invariant where <= |h|
      invariant Find(h, name, n, where) == HeaderValue(h, name, n)
      decreases |h| - where
    {
      var start := where;
      where := ScanName(h, start);
      k := where;
      if where == |h| {
        FindEnd(h, name, n, start);
        return false, k;
      }
      if h[where] == COLON && n == where - start && CaseEqN(name, h, start, n) {
        FindHit(h, name, n, start, k);
        return true, k;
      }
      where := SkipLine(h, if h[where] == COLON then where + 1 else where);
      FindNext(h, name, n, start, k, where);
    }
    return false, 0;
  }

  /**
   * The C function over a header block `h` and the caller's buffer of
   * `buffer.Length` (`b_len`) bytes. It returns the number of value bytes
   * copied (at most `b_len - 1`, NUL-terminated) or -1 with an empty
   * string in the buffer.
   */
  method GetHttpHeader(h: seq<byte>, buffer: array<byte>, name: seq<byte>, n: nat)
    returns (r: int)
    requires 1 <= buffer.Length && n <= |name|
    modifies buffer
    ensures Delivered(HeaderValue(h, name, n), r, buffer[..], old(buffer[..]))
  {
    var found, k := SearchName(h, name, n);
    if found {
      var s, e := ScanValue(h, k + 1);
      r := CopyOut(buffer, h[s..e]);
    } else {
      r := ClearOut(buffer);
    }
  }

  // Properties of the lookup.

  /**
   * A value is never empty of meaning at its edges: it holds no CR or LF,
   * and neither starts nor ends with a space or tab.
   */
  lemma FieldValueShape(h: seq<byte>, k: nat)
    requires k <= |h|
    ensures var v := FieldValue(h, k);
      && (forall i :: 0 <= i < |v| ==> v[i] != CR && v[i] != LF)
      && (|v| > 0 ==> !Blank(v[0]) && !Blank(v[|v| - 1]))
  {
    var s := SkipBlank(h, k);
    var e := ValueEnd(h, s);
    var t := TrimEnd(h, s, e);
    SkipBlankFacts(h, k);
    ValueEndFacts(h, s);
    TrimEndFacts(h, s, e);
    var v := h[s..t];
    assert forall i :: 0 <= i < |v| ==> v[i] == h[s + i];
    if |v| > 0 {
      assert s < |h|;
    }
  }

  /** `bytes` sit in `h` at index `p`. */
  predicate LineAt(h: seq<byte>, p: nat, bytes: seq<byte>)
  {
    p + |bytes| <= |h| && h[p..p + |bytes|] == bytes
  }

  /** A name of `n` bytes ending at `h[k] == ':'` that `q` matches. */
  predicate NamesField(line: seq<byte>, q: seq<byte>, n: nat)
    requires n <= |q|
  {
    var k := NameEnd(line, 0);
    k < |line| && line[k] == COLON && k == n && CaseEqN(q, line, 0, n)
  }

  lemma {:induction false} NameEndIs(h: seq<byte>, p: nat, k: nat)
    requires p <= k < |h| && (h[k] == COLON || h[k] == LF)
    requires forall i :: p <= i < k ==> h[i] != COLON && h[i] != LF
    ensures NameEnd(h, p) == k
    decreases k - p
  {
    if p < k {
      NameEndIs(h, p + 1, k);
    }
  }

  lemma {:induction false} LineEndIs(h: seq<byte>, p: nat, k: nat)
    requires p <= k < |h| && h[k] == LF
    requires forall i :: p <= i < k ==> h[i] != LF
    ensures LineEnd(h, p) == k
    decreases k - p
  {
    if p < k {
      LineEndIs(h, p + 1, k);
    }
  }

  lemma {:induction false} ValueEndIs(h: seq<byte>, p: nat, k: nat)
    requires p <= k < |h| && h[k] == CR
    requires forall i :: p <= i < k ==> h[i] != CR && h[i] != LF
    ensures ValueEnd(h, p) == k
    decreases k - p
  {
    if p < k {
      ValueEndIs(h, p + 1, k);
    }
  }

  /**
   * The value of a field written as ": " followed by `v` and '\r', where
   * `v` has no line break and no blank at either edge, is `v`.
   */
  lemma FieldValueIs(h: seq<byte>, k: nat, v: seq<byte>)
    requires k + |v| + 2 <= |h|
    requires h[k] == SP && h[k + 1..k + 1 + |v|] == v && h[k + 1 + |v|] == CR
    requires forall i :: 0 <= i < |v| ==> v[i] != CR && v[i] != LF
    requires |v| > 0 ==> !Blank(v[0]) && !Blank(v[|v| - 1])
    ensures FieldValue(h, k) == v
  {
    var s := k + 1;
    var e := s + |v|;
    assert forall i :: s <= i < e ==> h[i] == v[i - s];
    assert SkipBlank(h, k) == s by {
      if |v| > 0 {
        assert h[s] == v[0];
      }
    }
    ValueEndIs(h, s, e);
    if |v| > 0 {
      assert h[e - 1] == v[|v| - 1];
    }
  }

  lemma {:induction false} CaseCmpShift(q: seq<byte>, h: seq<byte>, p: nat, line: seq<byte>,
                                        i: nat, n: nat)
    requires LineAt(h, p, line) && i <= n <= |q| && n <= |line|
    ensures CaseCmp(q, h, p, i, n) == CaseCmp(q, line, 0, i, n)
    decreases n - i
  {
    if i < n {
      assert h[p + i] == line[i];
      CaseCmpShift(q, h, p, line, i + 1, n);
    }
  }

  /**
   * A complete line (ending in '\n') that does not name the field is
   * skipped as a whole: the search resumes at the next line.
   */
  lemma FindSkipsLine(h: seq<byte>, q: seq<byte>, n: nat, p: nat, line: seq<byte>)
    requires n <= |q| && LineAt(h, p, line)
    requires |line| > 0 && line[|line| - 1] == LF
    requires forall i :: 0 <= i < |line| - 1 ==> line[i] != LF
    requires !NamesField(line, q, n)
    ensures Find(h, q, n, p) == Find(h, q, n, p + |line|)
  {
    NoMatchAt(h, q, n, p, line);
    var k := NameEnd(h, p);
    var from := if h[k] == COLON then k + 1 else k;
    NextLineFrom(h, p, line, from - p);
    FindNext(h, q, n, p, k, p + |line|);
  }

  /** The name part of a line that does not name the field fails the match in `h` too. */
  lemma NoMatchAt(h: seq<byte>, q: seq<byte>, n: nat, p: nat, line: seq<byte>)
    requires n <= |q| && LineAt(h, p, line)
    requires |line| > 0 && line[|line| - 1] == LF
    requires !NamesField(line, q, n)
    ensures NameEnd(h, p) == p + NameEnd(line, 0) < p + |line| <= |h|
    ensures var k := NameEnd(h, p); !(h[k] == COLON && n == k - p && CaseEqN(q, h, p, n))
  {
    var kl := NameEnd(line, 0);
    NameEndShift(h, p, line, 0);
    if line[kl] == COLON && kl == n {
      CaseCmpShift(q, h, p, line, 0, n);
    }
  }

  /** From any point of a complete line, the next line starts right after it. */
  lemma NextLineFrom(h: seq<byte>, p: nat, line: seq<byte>, from: nat)
    requires LineAt(h, p, line) && from < |line|
    requires line[|line| - 1] == LF
    requires forall i :: 0 <= i < |line| - 1 ==> line[i] != LF
    ensures NextLine(h, p + from) == p + |line|
  {
    LineEndShift(h, p, line, from);
    LineEndIs(line, from, |line| - 1);
  }

  lemma {:induction false} NameEndShift(h: seq<byte>, p: nat, line: seq<byte>, j: nat)
    requires LineAt(h, p, line) && j < |line|
    requires |line| > 0 && line[|line| - 1] == LF
    ensures NameEnd(line, j) < |line| && NameEnd(h, p + j) == p + NameEnd(line, j)
    decreases |line| - j
  {
    assert h[p + j] == line[j] by {
      assert h[p..p + |line|][j] == h[p + j];
    }
    if line[j] != COLON && line[j] != LF {
      NameEndShift(h, p, line, j + 1);
    }
  }

  lemma {:induction false} LineEndShift(h: seq<byte>, p: nat, line: seq<byte>, j: nat)
    requires LineAt(h, p, line) && j < |line|
    requires |line| > 0 && line[|line| - 1] == LF
    ensures LineEnd(line, j) < |line| && LineEnd(h, p + j) == p + LineEnd(line, j)
    decreases |line| - j
  {
    assert h[p + j] == line[j] by {
      assert h[p..p + |line|][j] == h[p + j];
    }
    if line[j] != LF {
      LineEndShift(h, p, line, j + 1);
    }
  }

  /**
   * Round trip: a line `name: value\r\n` at a line start is found by any
   * name that agrees with it up to case, and the value comes back exactly,
   * provided the value has no line break and no blank at either edge.
   */
  lemma FindField(h: seq<byte>, q: seq<byte>, p: nat, name: seq<byte>, v: seq<byte>)
    requires |name| <= |q| && CaseAgree(q, name, 0, |name|)
    requires forall i :: 0 <= i < |name| ==> name[i] != COLON && name[i] != LF
    requires forall i :: 0 <= i < |v| ==> v[i] != CR && v[i] != LF
    requires |v| > 0 ==> !Blank(v[0]) && !Blank(v[|v| - 1])
    requires LineAt(h, p, name + [COLON, SP] + v + [CR, LF])
    ensures Find(h, q, |name|, p) == Found(v)
  {
    FieldLineLayout(h, p, name, v);
    FoundAt(h, q, p, name, v);
  }

  /** The same, with the line's pieces already located in `h`. */
  lemma FoundAt(h: seq<byte>, q: seq<byte>, p: nat, name: seq<byte>, v: seq<byte>)
    requires |name| <= |q| && CaseAgree(q, name, 0, |name|)
    requires forall i :: 0 <= i < |name| ==> name[i] != COLON && name[i] != LF
    requires forall i :: 0 <= i < |v| ==> v[i] != CR && v[i] != LF
    requires |v| > 0 ==> !Blank(v[0]) && !Blank(v[|v| - 1])
    requires var n := |name|;
      && LineAt(h, p, name) && p + n + 2 + |v| < |h|
      && h[p + n] == COLON && h[p + n + 1] == SP
      && h[p + n + 2..p + n + 2 + |v|] == v && h[p + n + 2 + |v|] == CR
    ensures Find(h, q, |name|, p) == Found(v)
  {
    var n := |name|;
    NameAt(h, p, name, 0);
    CaseEqNNoNul(q, name, 0, n);
    CaseCmpShift(q, h, p, name, 0, n);
    FieldValueIs(h, p + n + 1, v);
    FindHit(h, q, n, p, p + n);
  }

  /** Where the pieces of a line `name: value\r\n` at `p` lie in `h`. */
  lemma FieldLineLayout(h: seq<byte>, p: nat, name: seq<byte>, v: seq<byte>)
    requires LineAt(h, p, name + [COLON, SP] + v + [CR, LF])
    ensures var n := |name|;
      && LineAt(h, p, name) && p + n + 2 + |v| < |h|
      && h[p + n] == COLON && h[p + n + 1] == SP
      && h[p + n + 2..p + n + 2 + |v|] == v && h[p + n + 2 + |v|] == CR
  {
    var n := |name|;
    LineAtConcat(h, p, name + [COLON, SP] + v, [CR, LF]);
    LineAtConcat(h, p, name + [COLON, SP], v);
    LineAtConcat(h, p, name, [COLON, SP]);
    assert h[p + n] == COLON by {
      assert h[p + n..p + n + 2][0] == h[p + n];
    }
    assert h[p + n + 1] == SP by {
      assert h[p + n..p + n + 2][1] == h[p + n + 1];
    }
    assert h[p + n + 2 + |v|] == CR by {
      assert h[p + n + 2 + |v|..p + n + 4 + |v|][0] == h[p + n + 2 + |v|];
    }
  }

  lemma {:induction false} NameAt(h: seq<byte>, p: nat, name: seq<byte>, j: nat)
    requires LineAt(h, p, name) && j <= |name| && p + |name| < |h| && h[p + |name|] == COLON
    requires forall i :: 0 <= i < |name| ==> name[i] != COLON && name[i] != LF
    ensures NameEnd(h, p + j) == p + |name|
    decreases |name| - j
  {
    if j < |name| {
      assert h[p + j] == name[j] by {
        assert h[p..p + |name|][j] == h[p + j];
      }
      NameAt(h, p, name, j + 1);
    }
  }

  lemma LineAtAppend(h: seq<byte>, p: nat, a: seq<byte>, b: seq<byte>)
    requires LineAt(h, p, a) && LineAt(h, p + |a|, b)
    ensures LineAt(h, p, a + b)
  {
    assert h[p..p + |a| + |b|] == h[p..p + |a|] + h[p + |a|..p + |a| + |b|];
  }

  lemma LineAtConcat(h: seq<byte>, p: nat, a: seq<byte>, b: seq<byte>)
    requires LineAt(h, p, a + b)
    ensures LineAt(h, p, a) && LineAt(h, p + |a|, b)
  {
    assert h[p..p + |a|] == (a + b)[..|a|];
    assert h[p + |a|..p + |a| + |b|] == (a + b)[|a|..];
  }

  /**
   * The match is case-insensitive: names that agree up to case (and hold no
   * NUL, which would end `strncasecmp` early) find the same field.
   */
  lemma {:induction false} FindCaseInsensitive(h: seq<byte>, q1: seq<byte>, q2: seq<byte>,
                                               n: nat, p: nat)
    requires n <= |q1| && n <= |q2| && p <= |h|
    requires CaseAgree(q1, q2, 0, n)
    requires forall i :: 0 <= i < n ==> q1[i] != 0 && q2[i] != 0
    ensures Find(h, q1, n, p) == Find(h, q2, n, p)
    decreases |h| - p
  {
    if p < |h| {
      var k := NameEnd(h, p);
      if k < |h| && n == k - p {
        CaseEqNNoNul(q1, h, p, n);
        CaseEqNNoNul(q2, h, p, n);
        assert CaseEqN(q1, h, p, n) == CaseEqN(q2, h, p, n);
      }
      if k < |h| {
        FindCaseInsensitive(h, q1, q2, n, NextLine(h, if h[k] == COLON then k + 1 else k));
      }
    }
  }

  /** A line ended by its only '\n'. */
  predicate CompleteLine(l: seq<byte>)
  {
    |l| > 0 && l[|l| - 1] == LF && forall i :: 0 <= i < |l| - 1 ==> l[i] != LF
  }

  /** A complete line that does not name the field `q[..n]`. */
  predicate Skipped(l: seq<byte>, q: seq<byte>, n: nat)
    requires n <= |q|
  {
    CompleteLine(l) && !NamesField(l, q, n)
  }

  /** Lines written one after the other. */
  function Join(ls: seq<seq<byte>>): seq<byte>
  {
    if ls == [] then [] else ls[0] + Join(ls[1..])
  }

  /** The lines `ls` lie one after the other in `h` from `p` on. */
  predicate LinesAt(h: seq<byte>, p: nat, ls: seq<seq<byte>>)
    decreases |ls|
  {
    if ls == [] then p <= |h| else LineAt(h, p, ls[0]) && LinesAt(h, p + |ls[0]|, ls[1..])
  }

  /** Lines written out together lie one after the other. */
  lemma {:induction false} JoinedLinesAt(h: seq<byte>, p: nat, ls: seq<seq<byte>>)
    requires LineAt(h, p, Join(ls))
    ensures LinesAt(h, p, ls)
    decreases |ls|
  {
    if ls != [] {
      assert Join(ls) == ls[0] + Join(ls[1..]);
      LineAtConcat(h, p, ls[0], Join(ls[1..]));
      JoinedLinesAt(h, p + |ls[0]|, ls[1..]);
    }
  }

  /** A run of complete lines none of which names the field is skipped. */
  lemma {:induction false} FindSkipsLines(h: seq<byte>, q: seq<byte>, n: nat, p: nat,
                                          ls: seq<seq<byte>>, e: nat)
    requires n <= |q| && LinesAt(h, p, ls) && e == p + |Join(ls)| && e <= |h|
    requires forall i {:trigger Skipped(ls[i], q, n)} :: 0 <= i < |ls| ==> Skipped(ls[i], q, n)
    ensures Find(h, q, n, p) == Find(h, q, n, e)
    decreases |ls|
  {
    if ls == [] {
      assert e == p;
    } else {
      var l, rest := ls[0], ls[1..];
      assert Skipped(l, q, n);
      FindSkipsLine(h, q, n, p, l);
      assert e == p + |l| + |Join(rest)|;
      assert forall i :: 0 <= i < |rest| ==> rest[i] == ls[i + 1];
      FindSkipsLines(h, q, n, p + |l|, rest, e);
    }
  }

  /**
   * What a lookup finds after a run of lines that do not name the field is
   * what it finds from their start.
   */
  lemma FindThrough(h: seq<byte>, q: seq<byte>, n: nat, p: nat, ls: seq<seq<byte>>, r: Lookup)
    requires n <= |q| && LineAt(h, p, Join(ls))
    requires forall i {:trigger Skipped(ls[i], q, n)} :: 0 <= i < |ls| ==> Skipped(ls[i], q, n)
    requires Find(h, q, n, p + |Join(ls)|) == r
    ensures Find(h, q, n, p) == r
  {
    var e := p + |Join(ls)|;
    JoinedLinesAt(h, p, ls);
    FindSkipsLines(h, q, n, p, ls, e);
    calc {
      Find(h, q, n, p);
      Find(h, q, n, e);
      r;
    }
  }

  /** A lookup that reaches the final empty line finds nothing. */
  lemma FindAtEnd(h: seq<byte>, q: seq<byte>, n: nat, e: nat)
    requires n <= |q| && LineAt(h, e, [CR, LF]) && |h| == e + 2
    ensures Find(h, q, n, e) == NotFound
  {
    assert h[e] == CR && h[e + 1] == LF by {
      assert h[e..e + 2] == [CR, LF];
    }
    NameEndIs(h, e, e + 1);
    LineEndIs(h, e + 1, e + 1);
    FindNext(h, q, n, e, e + 1, |h|);
  }

  /** The same for one line. */
  lemma FindThroughLine(h: seq<byte>, q: seq<byte>, n: nat, p: nat, l: seq<byte>, r: Lookup)
    requires n <= |q| && LineAt(h, p, l) && Skipped(l, q, n)
    requires Find(h, q, n, p + |l|) == r
    ensures Find(h, q, n, p) == r
  {
    FindSkipsLine(h, q, n, p, l);
  }
}
