// The date text a response header carries, from `gen_http_date` or
// `cur_http_date` (net/net-http-server.c:844-847), is one line: the
// header and error-page lemmas of `HttpWriter` ask for that of their date.
module HttpDateLine {
  import opened HttpDate
  import HttpWriter
  import HttpDateRoundTrip

  /** The rendered date of every 32-bit time holds no LF. */
  lemma DateNoLf(t: int)
    requires -0x8000_0000 <= t < 0x8000_0000
    ensures HttpWriter.NoLf(FormatHttpDate(t))
  {
    FieldsInRange(t);
    HttpDateRoundTrip.RenderNoNul(FieldsOf(t));
  }
}
