// What `hts_parse_execute` does once a request has been parsed
// (net/net-http-server.c:553-634), and the loop around the parser that
// feeds it one block of the connection's input at a time
// (net/net-http-server.c:224-240, 636-639).
//
// The connection is a value `Conn`: the record, the unconsumed input
// `c->in`, whether queries are pending, and the responses queued so far by
// `write_http_error` (an append-only sequence). The `execute` callback is a
// parameter; `DefaultExecute` is `hts_default_execute`.
module HtsComplete {
  import opened HtsTypes
  import opened Chain
  import opened HtsRecord
  import opened HtsParse
  import opened HtsInvariant
  import opened HttpWriter

  /**
   * What a call of the `execute` callback leaves behind: its result, the
   * record's flags after it, and whether the connection then has pending
   * queries.
   */
  datatype Outcome = Outcome(res: int, flags: QueryFlags, pending: bool)

  /** The `execute` callback: the record, the request's bytes and the query type. */
  type Executor = (Hts, Blocks, QueryType) -> Outcome

  /**
   * The surroundings of one call of `hts_parse_execute`, none of which it
   * changes: the callback, the values of `SKIP_ALL_BYTES` and
   * `NEED_MORE_BYTES`, whether the connection is working and not stopped
   * (`conn_working`, no `C_ERROR`/`C_STOPPARSE`), the current date text and
   * the global `extra_http_response_headers`.
   */
  datatype Env = Env(exec: Executor, skipAll: int, needMore: int, working: bool,
                     now: seq<byte>, extraGlobal: seq<byte>)

  /**
   * One call of `write_http_error`: the record's version and flags at the
   * time, the code, and the date text and global extra headers it used.
   */
  datatype ErrorPage = ErrorPage(httpVer: int, flags: QueryFlags, code: int, now: seq<byte>,
                                 extraGlobal: seq<byte>)
  {
    /** The bytes the call queues. */
    function Bytes(): seq<byte>
    {
      ErrorResponse(httpVer, flags, code, now, extraGlobal).bytes
    }
  }

  /** The connection as the parser sees it, with the error pages queued so far. */
  datatype Conn = Conn(d: Hts, input: Blocks, pending: bool, out: seq<ErrorPage>)

  /** Return from `hts_parse_execute`, or go round the loop for the next request. */
  datatype Next = Return(c: Conn, ret: int) | Again(c: Conn)

  /**
   * `hts_default_execute`: an empty query passes; any other type marks the
   * record as an error. It answers 413 when a body length was given and 501
   * otherwise.
   */
  function DefaultExecute(d: Hts, region: Blocks, op: QueryType): (o: Outcome)
    ensures o.res == -413 <==> d.dataSize >= 0
    ensures o.res == -501 <==> d.dataSize < 0
    ensures o.flags - {QF_ERROR} == d.queryFlags - {QF_ERROR}
    ensures QF_ERROR in o.flags <==> QF_ERROR in d.queryFlags || op != Empty
    ensures !o.pending
  {
    Outcome(if d.dataSize >= 0 then -413 else -501,
            if op == Empty then d.queryFlags else d.queryFlags + {QF_ERROR}, false)
  }

  /** The bytes of the request: its header, and its body for a POST. */
  function RegionBytes(d: Hts): int
  {
    d.headerSize + if d.queryType == Post then d.dataSize else 0
  }

  /**
   * `bytes` as the C code computes it, in an `int`: the sum wraps around
   * when the header and a body length near the maximum exceed 2^31 - 1.
   */
  function RegionBytesAsWritten(d: Hts): int
  {
    Wrap32(RegionBytes(d))
  }

  /**
   * The region handed to `execute`: the whole input, truncated to the
   * request's bytes when more is buffered. This is the intended length;
   * see `RegionBytesAsWritten` for the 32-bit sum of the C code.
   */
  function Region(d: Hts, input: Blocks): (r: Blocks)
    requires 0 <= RegionBytes(d)
    ensures NonEmptyBlocks(input) ==> NonEmptyBlocks(r)
  {
    if RegionBytes(d) < Total(input) then Trunc(input, RegionBytes(d)) else input
  }

  /** The region is the first `header_size` (+ `data_size`) bytes, or all there are. */
  lemma RegionExact(d: Hts, input: Blocks)
    requires 0 <= RegionBytes(d)
    ensures var n := if RegionBytes(d) < Total(input) then RegionBytes(d) else Total(input);
      Flatten(Region(d, input)) == Flatten(input)[..n]
  {
    if RegionBytes(d) >= Total(input) {
      assert Flatten(input)[..Total(input)] == Flatten(input);
    }
  }

  /**
   * The wrap-around is harmless exactly when the request's bytes fit an
   * `int`; a POST whose header and body length reach 2^31 gets a negative
   * length, below any amount of buffered input.
   */
  lemma RegionBytesAgree(d: Hts)
    requires 0 <= RegionBytes(d) <= 0xFFFF_FFFF
    ensures RegionBytesAsWritten(d) == RegionBytes(d) <==> RegionBytes(d) < 0x8000_0000
    ensures RegionBytes(d) >= 0x8000_0000 ==> RegionBytesAsWritten(d) < 0
  {
  }

  /**
   * "POST / HTTP/1.1\r\nContent-Length: 2147483639\r\n\r\n" has a 47-byte
   * header and the largest body length the parser accepts: the C sum is
   * negative, so `rwm_trunc` is asked for a negative length.
   */
  lemma RegionLengthWraps(d: Hts)
    requires d.queryType == Post && d.headerSize == 47 && d.dataSize == MAX_DATA_SIZE
    ensures RegionBytes(d) == 2147483686
    ensures RegionBytesAsWritten(d) == -2147483610
  {
  }

  /**
   * `write_http_error(C, code)`: queue the error page, rendered with the
   * record's version and flags, and record that a written header clears
   * `QF_EXTRA_HEADERS`.
   */
  function WriteError(env: Env, c: Conn, code: int): (r: Conn)
    ensures r.input == c.input && r.pending == c.pending && |r.out| == |c.out| + 1
  {
    c.(out := c.out + [ErrorPage(c.d.httpVer, c.d.queryFlags, code, env.now, env.extraGlobal)],
       d := c.d.(queryFlags := FlagsAfterHeader(c.d.httpVer, c.d.queryFlags)))
  }

  /**
   * The answer to a clean request: 411 for a POST without a length, 413 for
   * any other method with a body, else whatever `execute` makes of it.
   */
  function Answer(env: Env, c: Conn): Outcome
    requires 0 <= c.d.headerSize
  {
    var d := c.d;
    if d.queryType == Post && d.dataSize < 0 then Outcome(-411, d.queryFlags, c.pending)
    else if d.queryType != Post && d.dataSize > 0 then Outcome(-413, d.queryFlags, c.pending)
    else env.exec(d, Region(d, c.input), d.queryType)
  }

  /**
   * The tail shared by every finished request: a record marked as an error
   * gets a 400 with keep-alive off; then the connection closes (state -1,
   * result 0) unless queries are pending or keep-alive is on, in which case
   * parsing restarts.
   */
  function Finish(c: Conn, env: Env): (n: Next)
    ensures n.c.input == c.input && n.c.pending == c.pending && c.out <= n.c.out
    ensures n.Return? ==> n.ret == 0 && n.c.d.parseState == Closed
    ensures n.Again? ==> n.c.d.parseState == Start
  {
    var c1 := if QF_ERROR in c.d.queryFlags
              then WriteError(env, c.(d := c.d.(queryFlags := c.d.queryFlags - {QF_KEEPALIVE})), 400)
              else c;
    if !c1.pending && QF_KEEPALIVE !in c1.d.queryFlags then
      Return(c1.(d := c1.d.(parseState := Closed)), 0)
    else
      Again(c1.(d := c1.d.(parseState := Start)))
  }

  /**
   * A result of 0 or `SKIP_ALL_BYTES`: the header is gone; then as many body
   * bytes as are buffered, up to `data_size`. When bytes beyond the body
   * remain, the call returns minus their number.
   */
  function SkipBody(c: Conn, env: Env): (n: Next)
    requires 0 <= c.d.headerSize <= Total(c.input)
    ensures Rest(n.c.input, c.input) && Total(n.c.input) + c.d.headerSize <= Total(c.input)
    ensures c.out <= n.c.out && n.c.pending == c.pending
    ensures NonEmptyBlocks(c.input) ==> NonEmptyBlocks(n.c.input)
    ensures n.Return? && n.ret == 0 ==> n.c.d.parseState == Closed
    ensures n.Again? ==> n.c.d.parseState == Start
  {
    var in1 := Skip(c.input, c.d.headerSize);
    RestSkip(c.input, c.d.headerSize);
    if c.d.dataSize > 0 then
      var x := Total(in1);
      var y := if x > c.d.dataSize then c.d.dataSize else x;
      var in2 := Skip(in1, y);
      RestSkip(in1, y);
      RestTrans(in2, in1, c.input);
      if y < x then Return(c.(d := c.d.(parseState := Start), input := in2), y - x)
      else Finish(c.(input := in2), env)
    else Finish(c.(input := in1), env)
  }

  /**
   * Any other result: the error page for its negation, with keep-alive off
   * for 413, and the error mark cleared so that no 400 follows.
   */
  function Refuse(env: Env, c: Conn, res: int): (n: Next)
    ensures n.c.input == c.input && n.c.pending == c.pending && c.out <= n.c.out
    ensures n.Return? ==> n.ret == 0 && n.c.d.parseState == Closed
    ensures n.Again? ==> n.c.d.parseState == Start
  {
    var c1 := if res == -413 then c.(d := c.d.(queryFlags := c.d.queryFlags - {QF_KEEPALIVE})) else c;
    var c2 := WriteError(env, c1, -res);
    Finish(c2.(d := c2.d.(queryFlags := c2.d.queryFlags - {QF_ERROR})), env)
  }

  /** `Refuse` queues exactly its page, and closes unless kept alive or pending. */
  lemma RefuseFacts(env: Env, c: Conn, res: int)
    ensures var flags := if res == -413 then c.d.queryFlags - {QF_KEEPALIVE} else c.d.queryFlags;
      var n := Refuse(env, c, res);
      && n.c.out == c.out + [ErrorPage(c.d.httpVer, flags, -res, env.now, env.extraGlobal)]
      && (n.Return? <==> !c.pending && QF_KEEPALIVE !in flags)
  {
  }

  /** The completion of a request whose parse reached `htqp_done`. */
  function Complete(env: Env, c: Conn): (n: Next)
    requires c.d.parseState == Done && !c.pending
    requires 0 <= c.d.headerSize <= Total(c.input)
    ensures n.Again? ==> !Bad(c.d) && n.c.d.parseState == Start
    ensures n.Again? ==> Total(n.c.input) + c.d.headerSize <= Total(c.input)
    ensures NonEmptyBlocks(c.input) ==> NonEmptyBlocks(n.c.input)
    ensures Rest(n.c.input, c.input) && c.out <= n.c.out
    ensures n.Return? && n.ret == 0 && n.c.d.parseState != Start ==> n.c.d.parseState == Closed
  {
    var d := c.d;
    var d0 := if d.headerSize >= MAX_HTTP_HEADER_SIZE then d.(queryFlags := d.queryFlags + {QF_ERROR}) else d;
    RestSkip(c.input, d.headerSize);
    if QF_ERROR in d0.queryFlags then
      Finish(c.(d := d0, input := Skip(c.input, d.headerSize)), env)
    else
      Serve(env, c)
  }

  /**
   * A clean request: act on what `Answer` returns. A positive result is
   * returned as it is, 0 or `SKIP_ALL_BYTES` skip the request, and any
   * other result refuses it with an error page.
   */
  function Serve(env: Env, c: Conn): (n: Next)
    requires 0 <= c.d.headerSize <= Total(c.input) && !Bad(c.d)
    ensures n.Again? ==> n.c.d.parseState == Start
    ensures n.Again? ==> Total(n.c.input) + c.d.headerSize <= Total(c.input)
    ensures NonEmptyBlocks(c.input) ==> NonEmptyBlocks(n.c.input)
    ensures Rest(n.c.input, c.input) && c.out <= n.c.out
    ensures n.Return? && n.ret == 0 && n.c.d.parseState != Start ==> n.c.d.parseState == Closed
  {
    var d := c.d;
    var o := Answer(env, c);
    var c1 := c.(d := d.(queryFlags := o.flags), pending := o.pending);
    RestSkip(c.input, d.headerSize);
    if o.res > 0 then Return(c1, o.res)
    else if o.res == env.skipAll || o.res == 0 then SkipBody(c1, env)
    else Refuse(env, c1.(input := Skip(c.input, d.headerSize)), o.res)
  }

  /**
   * What the loop keeps: a connection with nothing pending whose input is
   * in non-empty blocks, the part still to parse `raw` is a suffix of it,
   * and the record satisfies the parser invariant over the bytes in between.
   */
  predicate Parsing(c: Conn, raw: Blocks)
  {
    && NonEmptyBlocks(c.input) && NonEmptyBlocks(raw)
    && Total(raw) <= Total(c.input)
    && c.d.parseState != Done && c.d.parseState != Closed
    && Inv(c.d, Total(c.input) - Total(raw))
  }

  /** A record that keeps the parser invariant over the bytes before `raw` goes on parsing it. */
  lemma KeepParsing(c: Conn, raw: Blocks, d: Hts, used: int)
    requires NonEmptyBlocks(c.input) && NonEmptyBlocks(raw) && Total(raw) <= Total(c.input)
    requires d.parseState != Done && d.parseState != Closed
    requires used == Total(c.input) - Total(raw) && Inv(d, used)
    ensures Parsing(c.(d := d), raw)
  {
  }

  /** A restarted record parses the whole remaining input. */
  lemma RestartParsing(c: Conn)
    requires NonEmptyBlocks(c.input) && c.d.parseState == Start
    ensures Parsing(c, c.input)
  {
  }

  /** Where one turn of the loop leads: out of the call, or round again. */
  datatype Turned = Stop(x: Next) | Go(c: Conn, raw: Blocks)

  /**
   * One turn of the `while` loop of `hts_parse_execute`: run the state
   * machine over the first block of `raw` and drop what it consumed; when
   * the header is done, complete the request and, unless the call returns,
   * parse on from the connection's remaining input.
   */
  function Turn(env: Env, c: Conn, raw: Blocks): (t: Turned)
    requires Parsing(c, raw) && !c.pending && Total(raw) != 0
    ensures t.Stop? ==> t.x.Return? && Rest(t.x.c.input, c.input) && c.out <= t.x.c.out
    ensures t.Go? ==> Parsing(t.c, t.raw) && Rest(t.c.input, c.input) && c.out <= t.c.out
    ensures t.Go? ==> Total(t.c.input) < Total(c.input)
                      || (Total(t.c.input) == Total(c.input) && Total(t.raw) < Total(raw))
  {
    EmptyChain(raw);
    var used := Total(c.input) - Total(raw);
    var r := RunBlock(c.d, raw[0], 0);
    RunBlockInv(c.d, raw[0], 0, used);
    SkipInFirst(raw, r.p);
    var raw1 := Skip(raw, r.p);
    if r.d.parseState != Done then
      KeepParsing(c, raw1, r.d, used + (r.p - 0));
      Go(c.(d := r.d), raw1)
    else
      var n := Complete(env, c.(d := r.d));
      if n.Return? then Stop(n)
      else
        CleanRequest(r.d, used + (r.p - 0));
        RestartParsing(n.c);
        Go(n.c, n.c.input)
  }

  /**
   * The two ways a turn goes, for the record object to follow: the block's
   * parse either leaves the header unfinished and the loop goes on with the
   * rest of `raw`, or it completes a header that lies within the input.
   */
  lemma TurnCases(env: Env, c: Conn, raw: Blocks)
    requires Parsing(c, raw) && !c.pending && Total(raw) != 0
    ensures raw != [] && RunBlock(c.d, raw[0], 0).p <= |raw[0]| <= Total(raw)
    ensures var r := RunBlock(c.d, raw[0], 0);
      r.d.parseState != Done ==> Turn(env, c, raw) == Go(c.(d := r.d), Skip(raw, r.p))
    ensures var r := RunBlock(c.d, raw[0], 0);
      r.d.parseState == Done ==>
        && r.d.parseState != Closed && 0 <= r.d.headerSize <= Total(c.input)
        && var n := Complete(env, c.(d := r.d));
           Turn(env, c, raw) == if n.Return? then Stop(n) else Go(n.c, n.c.input)
  {
    EmptyChain(raw);
    FlattenFirst(raw);
    RunBlockInv(c.d, raw[0], 0, Total(c.input) - Total(raw));
  }

  /**
   * The `while` loop of `hts_parse_execute`: turn until the connection
   * stops working, queries are pending or `raw` is used up, which returns
   * `NEED_MORE_BYTES`.
   */
  function Loop(env: Env, c: Conn, raw: Blocks): (x: Next)
    requires Parsing(c, raw)
    ensures x.Return?
    decreases Total(c.input), Total(raw)
  {
    if !env.working || c.pending || Total(raw) == 0 then Return(c, env.needMore)
    else
      match Turn(env, c, raw)
      case Stop(x) => x
      case Go(c1, raw1) => Loop(env, c1, raw1)
  }

  /** `hts_parse_execute`: parsing always starts afresh at `htqp_start`. */
  function ParseExecute(env: Env, c: Conn): (x: Next)
    requires NonEmptyBlocks(c.input)
    ensures x.Return?
  {
    Loop(env, c.(d := c.d.(parseState := Start)), c.input)
  }

  // Properties of the completion.

  /** `n` is the connection, closed, with `page` queued and `input` left over. */
  predicate ClosedWith(n: Next, c: Conn, page: ErrorPage, input: seq<byte>)
  {
    && n.Return? && n.ret == 0 && n.c.d.parseState == Closed
    && n.c.out == c.out + [page] && Flatten(n.c.input) == input
  }

  /**
   * A request the parser marked as an error, or whose header reached
   * 16384 bytes, is never dispatched: its header is dropped, a 400 page is
   * queued with keep-alive off, and the connection closes.
   */
  lemma ErrorsAnswer400(env: Env, c: Conn, f: Executor)
    requires c.d.parseState == Done && !c.pending
    requires 0 <= c.d.headerSize <= Total(c.input)
    requires Bad(c.d) || c.d.headerSize >= MAX_HTTP_HEADER_SIZE
    ensures Complete(env.(exec := f), c) == Complete(env, c)
    ensures ClosedWith(Complete(env, c), c,
                       ErrorPage(c.d.httpVer, c.d.queryFlags + {QF_ERROR} - {QF_KEEPALIVE}, 400,
                                     env.now, env.extraGlobal),
                       Flatten(c.input)[c.d.headerSize..])
  {
    if Bad(c.d) {
      assert c.d.queryFlags + {QF_ERROR} == c.d.queryFlags;
    }
  }

  /** A clean request: parsed without error and with a header under the limit. */
  predicate Clean(c: Conn)
  {
    && c.d.parseState == Done && !c.pending && !Bad(c.d)
    && 0 <= c.d.headerSize < MAX_HTTP_HEADER_SIZE && c.d.headerSize <= Total(c.input)
  }

  /**
   * A clean POST without Content-Length is answered 411 without calling
   * `execute`; the header is dropped and the connection stays open exactly
   * when keep-alive was asked for.
   */
  lemma LengthRequired(env: Env, c: Conn, f: Executor)
    requires Clean(c) && c.d.queryType == Post && c.d.dataSize < 0 && env.skipAll != -411
    ensures Complete(env.(exec := f), c) == Complete(env, c)
    ensures var n := Complete(env, c);
      && n.c.out == c.out + [ErrorPage(c.d.httpVer, c.d.queryFlags, 411, env.now, env.extraGlobal)]
      && Flatten(n.c.input) == Flatten(c.input)[c.d.headerSize..]
      && (n.Return? <==> QF_KEEPALIVE !in c.d.queryFlags)
      && (n.Return? ==> n.ret == 0 && n.c.d.parseState == Closed)
  {
  }

  /**
   * A clean request other than POST that announces a body is answered 413
   * without calling `execute`, with keep-alive off, and the connection
   * closes.
   */
  lemma BodyTooLarge(env: Env, c: Conn, f: Executor)
    requires Clean(c) && c.d.queryType != Post && c.d.dataSize > 0 && env.skipAll != -413
    ensures Complete(env.(exec := f), c) == Complete(env, c)
    ensures ClosedWith(Complete(env, c), c,
                       ErrorPage(c.d.httpVer, c.d.queryFlags - {QF_KEEPALIVE}, 413,
                                     env.now, env.extraGlobal),
                       Flatten(c.input)[c.d.headerSize..])
  {
  }

  /** A dispatched request: clean, and neither the 411 nor the 413 case. */
  predicate Dispatched(c: Conn)
  {
    && Clean(c)
    && !(c.d.queryType == Post && c.d.dataSize < 0)
    && !(c.d.queryType != Post && c.d.dataSize > 0)
  }

  /** What `execute` answers for a dispatched request. */
  function Executed(env: Env, c: Conn): Outcome
    requires Dispatched(c)
  {
    env.exec(c.d, Region(c.d, c.input), c.d.queryType)
  }

  /**
   * A positive `execute` result (more bytes needed) is returned at once:
   * nothing is consumed from the input and nothing is written.
   */
  lemma PositiveWaits(env: Env, c: Conn)
    requires Dispatched(c) && Executed(env, c).res > 0
    ensures var n := Complete(env, c);
      && n == Return(n.c, Executed(env, c).res)
      && n.c.input == c.input && n.c.out == c.out && n.c.d.parseState == Done
  {
  }

  /** What `SkipBody` leaves: the header and the buffered part of the body gone. */
  lemma SkipBodyInput(c: Conn, env: Env)
    requires 0 <= c.d.headerSize <= Total(c.input)
    ensures var rest := Total(c.input) - c.d.headerSize;
      var body := if c.d.dataSize > 0 then (if rest > c.d.dataSize then c.d.dataSize else rest) else 0;
      Flatten(SkipBody(c, env).c.input) == Flatten(c.input)[c.d.headerSize + body..]
  {
    var in1 := Skip(c.input, c.d.headerSize);
    if c.d.dataSize > 0 {
      var x := Total(in1);
      var y := if x > c.d.dataSize then c.d.dataSize else x;
      assert Flatten(Skip(in1, y)) == Flatten(c.input)[c.d.headerSize + y..];
    }
  }

  /**
   * `SkipBody` returns minus the leftover bytes when more than the body is
   * buffered, and writes nothing unless the record is marked as an error.
   */
  lemma SkipBodyResult(c: Conn, env: Env)
    requires 0 <= c.d.headerSize <= Total(c.input)
    ensures var n := SkipBody(c, env);
      var rest := Total(c.input) - c.d.headerSize;
      && (c.d.dataSize > 0 && rest > c.d.dataSize ==>
            n == Return(n.c, c.d.dataSize - rest) && n.c.out == c.out && n.c.d.parseState == Start)
      && (QF_ERROR !in c.d.queryFlags ==> n.c.out == c.out)
  {
    SkipTotal(c.input, c.d.headerSize);
  }

  /**
   * A result of 0 or `SKIP_ALL_BYTES` consumes the header and then as much
   * of the body as is buffered. When more than the body is buffered the
   * call returns minus the number of bytes left over, ready to parse them
   * at the next call; nothing is written either way unless the callback
   * marked the record as an error.
   */
  lemma BodySkipped(env: Env, c: Conn)
    requires Dispatched(c) && Executed(env, c).res <= 0
    requires Executed(env, c).res == 0 || Executed(env, c).res == env.skipAll
    ensures var n := Complete(env, c);
      var rest := Total(c.input) - c.d.headerSize;
      var body := if c.d.dataSize > 0 then (if rest > c.d.dataSize then c.d.dataSize else rest) else 0;
      && Flatten(n.c.input) == Flatten(c.input)[c.d.headerSize + body..]
      && (c.d.dataSize > 0 && rest > c.d.dataSize ==>
            n == Return(n.c, c.d.dataSize - rest) && n.c.out == c.out && n.c.d.parseState == Start)
      && (QF_ERROR !in Executed(env, c).flags ==> n.c.out == c.out)
  {
    var o := Executed(env, c);
    var c1 := c.(d := c.d.(queryFlags := o.flags), pending := o.pending);
    assert c1.input == c.input && c1.out == c.out && c1.d.headerSize == c.d.headerSize;
    assert c1.d.dataSize == c.d.dataSize && c1.d.queryFlags == o.flags;
    assert Serve(env, c) == SkipBody(c1, env);
    assert Complete(env, c) == Serve(env, c);
    SkipBodyInput(c1, env);
    SkipBodyResult(c1, env);
  }

  /**
   * Any other result that is not positive writes the error page for its
   * negation (with keep-alive off for 413) and clears the error mark, so no
   * 400 follows; the header is consumed.
   */
  lemma ErrorResult(env: Env, c: Conn)
    requires Dispatched(c)
    requires var res := Executed(env, c).res; res < 0 && res != env.skipAll
    ensures var o := Executed(env, c);
      var flags := if o.res == -413 then o.flags - {QF_KEEPALIVE} else o.flags;
      var n := Complete(env, c);
      && n.c.out == c.out + [ErrorPage(c.d.httpVer, flags, -o.res, env.now, env.extraGlobal)]
      && Flatten(n.c.input) == Flatten(c.input)[c.d.headerSize..]
      && (n.Return? <==> !o.pending && QF_KEEPALIVE !in flags)
  {
    var o := Executed(env, c);
    var c1 := c.(d := c.d.(queryFlags := o.flags), pending := o.pending);
    assert Complete(env, c) == Refuse(env, c1.(input := Skip(c.input, c.d.headerSize)), o.res);
    RefuseFacts(env, c1.(input := Skip(c.input, c.d.headerSize)), o.res);
  }

  /**
   * The close rule: after a request the connection closes (state -1,
   * result 0) exactly when no query is pending and keep-alive is off, an
   * error mark turning keep-alive off and adding one 400 page; otherwise
   * parsing restarts at `htqp_start`.
   */
  lemma CloseRule(c: Conn, env: Env)
    ensures var n := Finish(c, env);
      var keep := QF_KEEPALIVE in c.d.queryFlags && QF_ERROR !in c.d.queryFlags;
      && (n.Return? <==> !c.pending && !keep)
      && (n.Return? ==> n.ret == 0 && n.c.d.parseState == Closed)
      && (n.Again? ==> n.c.d.parseState == Start)
      && n.c.input == c.input && n.c.pending == c.pending
      && n.c.out == c.out + (if QF_ERROR in c.d.queryFlags
                             then [ErrorPage(c.d.httpVer, c.d.queryFlags - {QF_KEEPALIVE}, 400,
                                                 env.now, env.extraGlobal)]
                             else [])
  {
  }

  /**
   * With `hts_default_execute` as the callback, every dispatched request
   * gets exactly one answer, 413 when it carried a body length and 501
   * otherwise, and never a 400.
   */
  lemma DefaultAnswers(env: Env, c: Conn)
    requires Dispatched(c) && c.d.queryType.IsMethod() && env.exec == DefaultExecute
    requires env.skipAll != -413 && env.skipAll != -501
    ensures var n := Complete(env, c);
      var code := if c.d.dataSize >= 0 then 413 else 501;
      var flags := if code == 413 then c.d.queryFlags + {QF_ERROR} - {QF_KEEPALIVE} else c.d.queryFlags + {QF_ERROR};
      && n.c.out == c.out + [ErrorPage(c.d.httpVer, flags, code, env.now, env.extraGlobal)]
      && (n.Return? <==> code == 413 || QF_KEEPALIVE !in c.d.queryFlags)
  {
    var o := Executed(env, c);
    assert o == DefaultExecute(c.d, Region(c.d, c.input), c.d.queryType);
    ErrorResult(env, c);
  }

  /**
   * A call of `hts_parse_execute` only consumes input (what is left is a
   * suffix of what was there) and only appends responses.
   */
  lemma {:induction false} LoopKeeps(env: Env, c: Conn, raw: Blocks)
    requires Parsing(c, raw)
    ensures var x := Loop(env, c, raw);
      Rest(x.c.input, c.input) && c.out <= x.c.out
    decreases Total(c.input), Total(raw)
  {
    if env.working && !c.pending && Total(raw) != 0 {
      var t := Turn(env, c, raw);
      if t.Go? {
        LoopKeeps(env, t.c, t.raw);
        RestTrans(Loop(env, t.c, t.raw).c.input, t.c.input, c.input);
      }
    }
  }

  /**
   * The state left by an earlier call does not matter: every call parses
   * the unconsumed input from the start.
   */
  lemma ParseRestarts(env: Env, c: Conn, s: ParseState)
    requires NonEmptyBlocks(c.input)
    ensures ParseExecute(env, c.(d := c.d.(parseState := s))) == ParseExecute(env, c)
  {
  }
}
