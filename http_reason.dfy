// The reason-phrase table `http_get_error_msg_text`
// (net/net-http-server.c:139-172). The C function also rewrites its
// argument: every code without an entry becomes 500, so the caller prints
// the rewritten code next to "Internal Server Error".
module HttpReason {
  import opened HtsTypes

  /** The status codes that have their own entry in the table. */
  const ListedCodes: set<int> := {200, 201, 202, 204, 206, 301, 302, 303, 304, 307,
    400, 403, 404, 405, 406, 408, 411, 413, 414, 418, 429, 501, 502, 503}

  /** Result of the lookup: the (possibly rewritten) code and its phrase. */
  datatype Reason = Reason(code: int, phrase: seq<PlainChar>)

  function ReasonPhrase(code: int): (r: Reason)
    ensures r.code == if code in ListedCodes then code else 500
    ensures r.code == 500 ==> r.phrase == "Internal Server Error"
    ensures 100 <= r.code < 1000
  {
    if code == 200 then Reason(200, "OK")
    else match code
      case 201 => Reason(201, "Created")
      case 202 => Reason(202, "Accepted")
      case 204 => Reason(204, "No Content")
      case 206 => Reason(206, "Partial Content")
      case 301 => Reason(301, "Moved Permanently")
      case 302 => Reason(302, "Found")
      case 303 => Reason(303, "See Other")
      case 304 => Reason(304, "Not Modified")
      case 307 => Reason(307, "Temporary Redirect")
      case 400 => Reason(400, "Bad Request")
      case 403 => Reason(403, "Forbidden")
      case 404 => Reason(404, "Not Found")
      case 405 => Reason(405, "Method Not Allowed")
      case 406 => Reason(406, "Not Acceptable")
      case 408 => Reason(408, "Request Timeout")
      case 411 => Reason(411, "Length Required")
      case 413 => Reason(413, "Request Entity Too Large")
      case 414 => Reason(414, "Request URI Too Long")
      case 418 => Reason(418, "I'm a teapot")
      case 429 => Reason(429, "Too Many Requests")
      case 501 => Reason(501, "Not Implemented")
      case 502 => Reason(502, "Bad Gateway")
      case 503 => Reason(503, "Service Unavailable")
      case _ => Reason(500, "Internal Server Error")
  }

  /**
   * Looking the rewritten code up again gives the same code and phrase, so
   * a status line and an error page built from one lookup agree.
   */
  lemma ReasonIdempotent(code: int)
    ensures ReasonPhrase(ReasonPhrase(code).code) == ReasonPhrase(code)
  {
  }

  /** Phrases of the codes the parser itself emits. */
  lemma ParserCodes()
    ensures ReasonPhrase(400) == Reason(400, "Bad Request")
    ensures ReasonPhrase(411) == Reason(411, "Length Required")
    ensures ReasonPhrase(413) == Reason(413, "Request Entity Too Large")
    ensures ReasonPhrase(501) == Reason(501, "Not Implemented")
  {
  }

  /**
   * Every phrase has 2 to 24 characters, none of them ':' or a line break,
   * so a status line is a single line that names no header field.
   */
  lemma PhraseText(code: int)
    ensures var p := ReasonPhrase(code).phrase;
      && 2 <= |p| <= 24
      && forall i :: 0 <= i < |p| ==> p[i] != ':' && p[i] != '\r' && p[i] != '\n'
  {
  }
}
