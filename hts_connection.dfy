// `hts_parse_execute` (net/net-http-server.c:216-640) as the C code runs
// it: the parser's record `D` and the connection's input `c->in` are
// updated in place while the outer loop walks a clone of the input one
// block at a time, and the completion of a request skips bytes, queues
// error pages and decides whether to close. Every method is proved to do
// what the value-level model in `HtsComplete` describes, so the properties
// proved there hold of it.
module HtsConnection {
  import opened HtsTypes
  import opened Chain
  import opened HtsRecord
  import opened HtsParse
  import opened HtsInvariant
  import opened HttpWriter
  import opened HtsServer
  import HtsDriver
  import HC = HtsComplete

  /**
   * The part of a connection the parser touches: its `hts_data` record,
   * the buffered input `c->in`, whether queries are pending, and the
   * error pages `write_http_error` has queued on the output.
   */
  class Connection {
    const d: HtsData
    var input: Blocks
    var pending: bool
    var out: seq<HC.ErrorPage>

    /** The connection as a value. */
    function Model(): HC.Conn
      reads this, d
    {
      HC.Conn(d.Model(), input, pending, out)
    }

    /** A connection with record `d`, input `input` and nothing queued yet. */
    constructor(d: HtsData, input: Blocks, pending: bool)
      ensures this.d == d && this.input == input && this.pending == pending && out == []
    {
      this.d := d;
      this.input := input;
      this.pending := pending;
      out := [];
    }

    /** `write_http_error(C, code)`: queue the page for `code` on the output. */
    method WriteError(env: HC.Env, code: int)
      modifies this`out, d`queryFlags
      ensures Model() == HC.WriteError(env, old(Model()), code)
    {
      out := out + [HC.ErrorPage(d.httpVer, d.queryFlags, code, env.now, env.extraGlobal)];
      d.queryFlags := FlagsAfterHeader(d.httpVer, d.queryFlags);
    }

    /**
     * The end of every finished request: a 400 for a record marked as an
     * error, then close (`parse_state = -1`, return 0) or restart.
     * `again` says the loop goes on; otherwise `ret` is returned.
     */
    method Finish(env: HC.Env) returns (ret: int, again: bool)
      modifies this`out, d`queryFlags, d`parseState
      ensures var n := HC.Finish(old(Model()), env);
        Model() == n.c && again == n.Again? && (n.Return? ==> ret == n.ret)
    {
      if QF_ERROR in d.queryFlags {
        d.queryFlags := d.queryFlags - {QF_KEEPALIVE};
        WriteError(env, 400);
      }
      if !pending && QF_KEEPALIVE !in d.queryFlags {
        d.parseState := Closed;
        return 0, false;
      }
      d.parseState := Start;
      return 0, true;
    }

    /** A result of 0 or `SKIP_ALL_BYTES`: drop the header and the buffered body. */
    method SkipBody(env: HC.Env) returns (ret: int, again: bool)
      requires 0 <= d.headerSize <= Total(input)
      modifies this`input, this`out, d`queryFlags, d`parseState
      ensures var n := HC.SkipBody(old(Model()), env);
        Model() == n.c && again == n.Again? && (n.Return? ==> ret == n.ret)
    {
      input := Skip(input, d.headerSize);
      if d.dataSize > 0 {
        var x := Total(input);
        var y := if x > d.dataSize then d.dataSize else x;
        input := Skip(input, y);
        if y < x {
          d.parseState := Start;
          return y - x, false;
        }
      }
      ret, again := Finish(env);
    }

    /** Any other non-positive result: the error page for `-res`. */
    method Refuse(env: HC.Env, res: int) returns (ret: int, again: bool)
      modifies this`out, d`queryFlags, d`parseState
      ensures var n := HC.Refuse(env, old(Model()), res);
        Model() == n.c && again == n.Again? && (n.Return? ==> ret == n.ret)
    {
      if res == -413 {
        d.queryFlags := d.queryFlags - {QF_KEEPALIVE};
      }
      WriteError(env, -res);
      d.queryFlags := d.queryFlags - {QF_ERROR};
      ret, again := Finish(env);
    }

    /** A clean request: answer it, then act on the answer. */
    method Serve(env: HC.Env) returns (ret: int, again: bool)
      requires 0 <= d.headerSize <= Total(input) && !Bad(d.Model())
      modifies this`input, this`out, this`pending, d`queryFlags, d`parseState
      ensures var n := HC.Serve(env, old(Model()));
        Model() == n.c && again == n.Again? && (n.Return? ==> ret == n.ret)
    {
      var o := HC.Answer(env, Model());
      d.queryFlags := o.flags;
      pending := o.pending;
      if o.res > 0 {
        return o.res, false;
      } else if o.res == env.skipAll || o.res == 0 {
        ret, again := SkipBody(env);
      } else {
        input := Skip(input, d.headerSize);
        ret, again := Refuse(env, o.res);
      }
    }

    /** The completion of a request whose header has been parsed. */
    method Complete(env: HC.Env) returns (ret: int, again: bool)
      requires d.parseState == Done && !pending && 0 <= d.headerSize <= Total(input)
      modifies this`input, this`out, this`pending, d`queryFlags, d`parseState
      ensures var n := HC.Complete(env, old(Model()));
        Model() == n.c && again == n.Again? && (n.Return? ==> ret == n.ret)
    {
      if d.headerSize >= MAX_HTTP_HEADER_SIZE {
        d.queryFlags := d.queryFlags + {QF_ERROR};
      }
      if QF_ERROR in d.queryFlags {
        input := Skip(input, d.headerSize);
        ret, again := Finish(env);
      } else {
        ret, again := Serve(env);
      }
    }

    /**
     * One turn of the outer loop: run the state machine over the first
     * block of `raw`, drop what it consumed from `raw`, and complete the
     * request when its header is done. `stop` says the call returns `ret`.
     */
    method Turn(env: HC.Env, raw: Blocks, ghost c0: HC.Conn)
      returns (raw': Blocks, ret: int, stop: bool)
      requires Model() == c0 && HC.Parsing(c0, raw) && !c0.pending && Total(raw) != 0
      modifies this`input, this`out, this`pending, d
      ensures var t := HC.Turn(env, c0, raw);
        && stop == t.Stop?
        && (t.Stop? ==> Model() == t.x.c && ret == t.x.ret)
        && (t.Go? ==> Model() == t.c && raw' == t.raw)
    {
      HC.TurnCases(env, c0, raw);
      var q := HtsDriver.RunBlock(d, raw[0]);
      raw' := Skip(raw, q);
      ret, stop := 0, false;
      if d.parseState == Done {
        var again;
        ret, again := Complete(env);
        stop := !again;
        if again {
          raw' := input;
        }
      }
    }

    /**
     * `hts_parse_execute`: restart the parser, then turn the loop until the
     * connection stops working, queries are pending or the input is used
     * up, which returns `NEED_MORE_BYTES`.
     */
    method ParseExecute(env: HC.Env) returns (ret: int)
      requires NonEmptyBlocks(input)
      modifies this`input, this`out, this`pending, d
      ensures var x := HC.ParseExecute(env, old(Model()));
        Model() == x.c && ret == x.ret
    {
      d.parseState := Start;
      var raw := input;
      ghost var goal := HC.Loop(env, Model(), raw);
      while env.working && !pending && Total(raw) != 0
        invariant HC.Parsing(Model(), raw)
        invariant HC.Loop(env, Model(), raw) == goal
        decreases Total(input), Total(raw)
      {
        var stop;
        raw, ret, stop := Turn(env, raw, Model());
        if stop {
          return;
        }
      }
      ret := env.needMore;
    }
  }
}
