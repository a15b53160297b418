// The two response writers on the record object: they append to a buffer
// and clear `QF_EXTRA_HEADERS` in `hts_data`, as
// `write_basic_http_header_raw` (net/net-http-server.c:828-864) and
// `write_http_error_raw` (net/net-http-server.c:184-197) do. Each is proved
// to append exactly the bytes `HttpWriter` describes.
module HttpOutput {
  import opened HtsTypes
  import opened HttpReason
  import opened HttpHeader
  import opened HttpWriter
  import opened HtsServer

  /**
   * `write_basic_http_header_raw`: append the header block to `raw` and
   * return its length, or append nothing and return 0 for HTTP/0.9; a
   * written block clears `QF_EXTRA_HEADERS`.
   */
  method WriteBasicHeader(d: HtsData, raw: seq<byte>, code: int, date: seq<byte>, len: int,
                          add: seq<byte>, contentType: CText, extraGlobal: seq<byte>)
    returns (raw': seq<byte>, n: int)
    modifies d`queryFlags
    ensures var h := BasicHeader(d.httpVer, old(d.queryFlags), code, date, len, add, contentType,
                                 extraGlobal);
      raw' == raw + h && n == |h|
    ensures d.queryFlags == FlagsAfterHeader(d.httpVer, old(d.queryFlags))
  {
    if d.httpVer >= HTTP_V10 || d.httpVer == 0 {
      var extra := if QF_EXTRA_HEADERS in d.queryFlags then extraGlobal else [];
      var block := Join(Preamble(code, date, contentType))
                   + Field(CONNECTION, ConnectionValue(QF_KEEPALIVE in d.queryFlags))
                   + Printed(extra, 1024) + Printed(add, 1024);
      d.queryFlags := d.queryFlags - {QF_EXTRA_HEADERS};
      block := block + LengthLine(len);
      block := block + CRLF;
      raw', n := raw + block, |block|;
    } else {
      raw', n := raw, 0;
    }
  }

  /**
   * `write_http_error_raw` with the current date text `now`: a bare header
   * block for 204, otherwise the header block announcing the error page,
   * then the page; it returns the page's length (0 for 204).
   */
  method WriteErrorRaw(d: HtsData, raw: seq<byte>, code: int, now: seq<byte>, extraGlobal: seq<byte>)
    returns (raw': seq<byte>, n: int)
    modifies d`queryFlags
    ensures var w := ErrorResponse(d.httpVer, old(d.queryFlags), code, now, extraGlobal);
      raw' == raw + w.bytes && n == w.result
    ensures d.queryFlags == FlagsAfterHeader(d.httpVer, old(d.queryFlags))
  {
    if code == 204 {
      raw', n := WriteBasicHeader(d, raw, code, now, -1, [], Null, extraGlobal);
      n := 0;
    } else {
      var body := ErrorBody(code);
      ghost var h := BasicHeader(d.httpVer, d.queryFlags, ReasonPhrase(code).code, now, |body|, [],
                                 Null, extraGlobal);
      assert ErrorResponse(d.httpVer, d.queryFlags, code, now, extraGlobal) == Written(h + body, |body|);
      raw', n := WriteBasicHeader(d, raw, ReasonPhrase(code).code, now, |body|, [], Null, extraGlobal);
      AppendAssoc(raw, h, body);
      raw' := raw' + body;
      n := |body|;
    }
  }
}
