# HTTP/1.x request-header parser and response writer

A Dafny model of the HTTP server layer of an MTProto proxy
(`net/net-http-server.c` and `net/net-http-server.h`). The model covers these parts:

- **`hts_parse_execute`**: a 13-state machine. It reads a connection's buffered input one
  contiguous block at a time and accumulates the request header in the per-connection
  record `struct hts_data`. Once the header is complete, it does one of these:
  - dispatches the request to a pluggable `execute` callback;
  - writes an error page;
  - skips the request body;
  - closes the connection;
  - goes round again for a pipelined request.
- **The response writers**: `write_basic_http_header_raw` and `write_http_error_raw`, with
  the reason-phrase table `http_get_error_msg_text`.
- **The date codec**: `gen_http_date`/`gen_http_time`, for the fixed 29-byte
  "Www, DD Mon YYYY HH:MM:SS GMT" form, and the one-second cache `cur_http_date`.
- **`get_http_header`**: looks up a field in a block of header lines.
- **`hts_default_execute`**: the sample dispatcher.

Modules, bottom up:

| file | module | contents |
|---|---|---|
| `hts_types.dfy` | `HtsTypes` | bytes, `HTTP_V*`, `MAX_HTTP_HEADER_SIZE`, `QF_*` flags as a set of `QueryFlag`s with their bit values, query types, parse states, decimal rendering, `strncasecmp` |
| `hts_record.dfy` | `HtsRecord` | `struct hts_data` as the value `Hts`, the reset at `htqp_start`, the 16-byte `word` buffer |
| `chain.dfy` | `Chain` | the connection input `c->in` as a sequence of non-empty byte blocks, `rwm_skip_data` and `rwm_trunc` |
| `hts_parse.dfy` | `HtsParse` | the state machine as pure functions: one per `switch` arm, `Step` (one turn of the inner loop) and `RunBlock` (the inner loop over one block) |
| `hts_invariant.dfy` | `HtsInvariant` | what every arm preserves: byte accounting, token offsets, the error mark, the Content-Length bound |
| `hts_fields.dfy` | `HtsFields` | what the word handlers decide about the tokens they see, and the token and header limits |
| `hts_split.dfy` | `HtsSplit` | resumption at block boundaries: the inner loop over two blocks in turn against one run over their concatenation |
| `hts_server.dfy` | `HtsServer` | `class HtsData`: the record with mutable fields, and the arms as methods with the source's byte loops |
| `hts_driver.dfy` | `HtsDriver` | the `switch` and the inner loop as methods over `HtsData` |
| `hts_complete.dfy` | `HtsComplete` | completion of a request and the outer loop as pure functions over a connection value |
| `hts_connection.dfy` | `HtsConnection` | `class Connection`: `hts_parse_execute` and its completion as methods that update the record, the input and the list of written error pages |
| `http_reason.dfy` | `HttpReason` | `http_get_error_msg_text` |
| `http_writer.dfy` | `HttpWriter` | the header and error-page bytes as functions, with what a reader of those bytes finds in them |
| `http_output.dfy` | `HttpOutput` | `write_basic_http_header_raw` and `write_http_error_raw` as methods that append to an output buffer and clear `QF_EXTRA_HEADERS` |
| `http_header.dfy` | `HttpHeader` | `get_http_header` as a method over an `array<byte>` buffer, against a pure field lookup `HeaderValue` |
| `http_date.dfy` | `HttpDate` | the date codec as pure functions (`FormatHttpDate`, `ParseHttpDate`) |
| `date_codec.dfy` | `HttpDateCodec` | `gen_http_date`/`gen_http_time` as methods with the source's division chain and month loops |
| `date_roundtrip.dfy` | `HttpDateRoundTrip` | parsing a formatted date gives back the time |
| `date_cache.dfy` | `HttpDateCache` | `cur_http_date`'s cached time and text |
| `date_line.dfy` | `HttpDateLine` | the date a response carries is one line |

Modelling choices:

- **Execute callback.** `HTS_FUNC(C)->execute` is an `Executor`, which is a function value.
  - It receives the record, the request's region of input and the query type.
  - It returns a result, the record's flags afterwards, and whether the connection now has
    pending queries.
  - `HtsComplete.DefaultExecute` is `hts_default_execute`.
- **`SKIP_ALL_BYTES` and `NEED_MORE_BYTES`** are defined outside these files. They are the
  `skipAll` and `needMore` parameters of `Env`.
- **Connection status.** `Env.working` stands for "status is `conn_working` and neither
  `C_ERROR` nor `C_STOPPARSE` is set". The current date text and
  `extra_http_response_headers` are also inputs in `Env`.
- **Error responses.** Each `write_http_error` call is recorded as an `ErrorPage` (the
  version, the flags, the code and the date text it used). `ErrorPage.Bytes()` gives the
  bytes it queues.
- **Parse state on entry.** `hts_parse_execute` resets `parse_state` to `htqp_start` on every
  call, as the source does (`HtsComplete.ParseRestarts`). Within one call, a token that
  spans a block boundary resumes where it stopped (`HtsSplit.RunBlockSplit`). The one
  exception is a token already past the 4096-byte limit at the end of a block. The split run
  goes fatal at the boundary, and the joined run goes fatal where the token ends. Both runs
  keep the same word and mark the request bad.
- **`parse_state = -1`** on close is the extra state `Closed`.
- **Month lengths.** The global month-length table `dd[]`, whose February entry both date
  functions overwrite, is the pure function `MonthLen(m, leap)`.

## Model

| member | source | states |
|---|---|---|
| HtsTypes.Wrap32 | net/net-http-server.c:771 | the `int` result of the seconds computation always lies in the 32-bit range and equals the exact value whenever that fits |
| HtsTypes.QueryFlag.Bit | net/net-http-server.h:80-87 | every flag's value is one of the eight declared single-bit constants |
| HtsTypes.BitsDistinct | net/net-http-server.h:80-87 | two flags have the same bit iff they are the same flag, so setting or clearing one leaves the others alone |
| HtsTypes.QueryType.Code | net/net-http-server.h:70-78 | query types are numbered 0..6 and 0 is `htqt_none` alone, so a zeroed record carries no method |
| HtsTypes.Decimal | net/net-http-server.c:855 | `%d` of a non-negative number: at least one byte, all digits, 1–4 bytes below 10000 |
| HtsTypes.DecimalValue | net/net-http-server.c:855 | the digits `%d` prints read back as the number printed |
| HtsTypes.Pad2 | net/net-http-server.c:725-727 | `%.2d` gives at least two digit bytes, exactly two below 100 |
| HtsTypes.Pad2Value | net/net-http-server.c:725-727 | the digits `%.2d` prints read back as the number printed |
| HtsTypes.CaseCmpAgree | net/net-http-server.c:395-399 | `strncasecmp` over `n` bytes succeeds when the bytes agree up to case, and over NUL-free bytes only then |
| HtsTypes.CaseEqNNoNul | net/net-http-server.c:795 | for a name without NUL bytes, `strncasecmp` reports equality iff the bytes agree up to ASCII case |
| HtsRecord.ZeroWord | net/net-http-server.h:58 | the zeroed `word` buffer holds 16 zero bytes |
| HtsRecord.Cleared | net/net-http-server.c:245-246 | the `memset` up to `query_seqno` leaves the sequence number and zeroes the query type and parse state |
| HtsRecord.ResetForgets | net/net-http-server.c:245-249 | the reset at `htqp_start` always moves `query_seqno` on, and two records reset alike iff their sequence numbers agree, so nothing else survives |
| HtsRecord.StoredSplit | net/net-http-server.c:253-259 | storing a token in two pieces (two blocks) gives the same buffer as storing it at once |
| HtsRecord.StoredToken | net/net-http-server.c:254-257 | the buffer keeps the first 15 bytes of a token, never writes index 15, and holds short tokens whole |
| HtsRecord.StoredNext | net/net-http-server.c:372-375 | one more byte is written at index `wlen` only while `wlen < 15` |
| HtsRecord.Signed | net/net-http-server.c:371 | `char` on the platform is signed: bytes from 128 up compare as negative |
| HtsRecord.ByteClasses | net/net-http-server.c:253-371 | a token byte (unsigned compare) is any byte above space; a name byte (signed compare) is a byte between space and 128 other than ':' |
| Chain.FlattenFirst | net/net-http-server.c:234-237 | the first block is the front of the input and contributes its length |
| Chain.EmptyChain | net/net-http-server.c:229-235 | with non-empty blocks, the input has no bytes iff it has no blocks, so the block the loop reads has `len > 0` |
| Chain.Skip | net/net-http-server.c:561-604 | `rwm_skip_data` of `n` bytes leaves exactly the input after its first `n` bytes, in non-empty blocks |
| Chain.Trunc | net/net-http-server.c:585-587 | `rwm_trunc` to `n` bytes keeps exactly the first `n` bytes, in non-empty blocks |
| Chain.SkipTotal | net/net-http-server.c:561 | skipping `n` bytes lowers the total by `n` |
| Chain.SkipInFirst | net/net-http-server.c:560-561 | skipping within the first block drops it when used up and otherwise shortens it |
| Chain.RestTrans | net/net-http-server.c:599-604 | the input left after successive skips is a suffix of the original |
| HtsParse.Span | net/net-http-server.c:253-259 | the scanning loops stop at the first byte outside the class, at the end of the block, or at the room left, and every byte passed is in the class |
| HtsParse.AccDigits | net/net-http-server.c:412-425 | the digit loop passes only digits, stops at a non-digit or end of block, or stops on overflow at a digit when the accumulator reaches 0x7fffffff/10; from a bounded start the value stays at most 2147483647 |
| HtsParse.StepMoves | net/net-http-server.c:241-557 | one turn of the inner loop stays in the block, never closes, and either consumes a byte or moves to a lower-ranked state |
| HtsParse.ReadToSpaceMoves | net/net-http-server.c:251-327 | `htqp_readtospace` makes progress |
| HtsParse.SkipSpcMoves | net/net-http-server.c:329-367 | `htqp_skipspc` / `htqp_skipspctoeoln` make progress |
| HtsParse.ReadToColonMoves | net/net-http-server.c:369-407 | `htqp_readtocolon` makes progress |
| HtsParse.ReadIntMoves | net/net-http-server.c:409-436 | `htqp_readint` makes progress |
| HtsParse.SkipToEolnMoves | net/net-http-server.c:438-453 | `htqp_skiptoeoln` makes progress |
| HtsParse.EolnMoves | net/net-http-server.c:455-464 | `htqp_eoln` makes progress, and consumes a byte or lowers the rank on CR/LF |
| HtsParse.WantLfMoves | net/net-http-server.c:466-494 | `htqp_wantlf` makes progress |
| HtsParse.LineStartMoves | net/net-http-server.c:496-524 | `htqp_linestart` makes progress |
| HtsParse.StartMoves | net/net-http-server.c:243-249 | `htqp_start` makes progress |
| HtsParse.RunBlock | net/net-http-server.c:241-558 | the inner loop ends at the end of the block or with the header done, never in the closed state |
| HtsSplit.RunBlockSplit | net/net-http-server.c:229-241 | running the inner loop over `a` and then, from the record it leaves, over `b` gives the same record as one run over `a + b`, with positions in `b` moved by the length of `a`; a header already done in `a` stops there; a token already past 4096 bytes at the end of `a` makes the joined run fatal later, with the same word and a token count at least as large |
| HtsSplit.StepPrefix | net/net-http-server.c:241-558 | one pass of the `switch` over `a + b` does what it does over `a` when it stops inside `a`; when it reaches the end of `a` it goes on as the next pass over `b` from the record it left |
| HtsSplit.StepSuffix | net/net-http-server.c:241-558 | one pass of the `switch` over the bytes of `b` gives the same record in `a + b`, with the position moved by the length of `a` |
| HtsSplit.RunBlockTail | net/net-http-server.c:241-558 | the inner loop over the tail `b` of a longer block gives the same record as over `b` alone, with positions moved by the length of what comes before |
| HtsSplit.SpanPrefix | net/net-http-server.c:332-335 | a byte-scanning loop that stops inside `a` stops at the same byte in `a + b`; one that reaches the end of `a` goes on from the start of `b` with its room reduced by the bytes already read |
| HtsSplit.AccDigitsPrefix | net/net-http-server.c:412-420 | the Content-Length accumulator left at the end of `a` (never overflowed there) is where the digits of `b` resume; digits that stop inside `a` give the same value, position and overflow flag in `a + b` |
| HtsSplit.TokenAcross | net/net-http-server.c:253-259 | a token that reaches the end of `a` and goes on into `b` is stored and counted as the token so far followed by the bytes of `b` |
| HtsDriver.StepAdvances | net/net-http-server.c:241-558 | after one turn, the rest of the inner loop gives the same result as the whole loop |
| HtsDriver.Step | net/net-http-server.c:242-557 | the `switch` over the mutable record computes exactly the pure `Step` |
| HtsDriver.RunBlock | net/net-http-server.c:234-241 | the inner loop over one block, on the mutable record, computes exactly the pure `RunBlock` from position 0 |
| HtsServer.HtsData.constructor | net/net-http-server.h:45-67 | a fresh record is the zeroed `hts_data` |
| HtsServer.HtsData.ClearRequest | net/net-http-server.c:245 | zeroes the query type, flags, words and sizes |
| HtsServer.HtsData.ClearPositions | net/net-http-server.c:245 | zeroes the offsets, version and `wlen` |
| HtsServer.HtsData.ClearExtra | net/net-http-server.c:245 | zeroes the `extra*` fields and the parse state |
| HtsServer.HtsData.Zero | net/net-http-server.c:245 | the `memset` leaves exactly the cleared record with the old `query_seqno` |
| HtsServer.HtsData.Restart | net/net-http-server.c:243-249 | `htqp_start` leaves exactly `Reset` of the old record |
| HtsServer.HtsData.ScanWord | net/net-http-server.c:253-259 | the word loop stops where `Span` does, stores the bytes passed into `word` and counts them all in `wlen` |
| HtsServer.HtsData.Failed | net/net-http-server.c:283-285 | marks the request bad and skips to the end of the line |
| HtsServer.HtsData.MethodWord | net/net-http-server.c:269-285 | the first word sets the method as `Method` says |
| HtsServer.HtsData.UriWord | net/net-http-server.c:286-292 | the second word records the URI as `Uri` says |
| HtsServer.HtsData.VersionWord | net/net-http-server.c:293-312 | the third word sets the version as `Version` says |
| HtsServer.HtsData.FieldValueWord | net/net-http-server.c:313-325 | a Host or Connection value is handled as `FieldValue` says |
| HtsServer.HtsData.EndWord | net/net-http-server.c:267-326 | the end of a word updates the record exactly as `WordEnd` |
| HtsServer.HtsData.ReadWord | net/net-http-server.c:251-327 | the `htqp_readtospace` arm on the mutable record computes exactly the pure arm |
| HtsServer.HtsData.SkipRun | net/net-http-server.c:332-444 | the skipping loops stop where `Span` does within the header limit and count the bytes passed in `header_size` |
| HtsServer.HtsData.EndBlanks | net/net-http-server.c:343-366 | the end of the blanks updates the record exactly as `BlankEnd` |
| HtsServer.HtsData.SkipBlanks | net/net-http-server.c:329-367 | the `htqp_skipspc` arm on the mutable record computes exactly the pure arm |
| HtsServer.HtsData.MatchName | net/net-http-server.c:395-403 | the name comparison sets the flags as `NameFlags` |
| HtsServer.HtsData.ReadName | net/net-http-server.c:369-407 | the `htqp_readtocolon` arm on the mutable record computes exactly the pure arm |
| HtsServer.HtsData.Digits | net/net-http-server.c:412-423 | the digit loop returns `AccDigits`' stop and value, counts the digits in `header_size`, clears `QF_DATASIZE` after a digit, and marks overflow bad |
| HtsServer.HtsData.ReadLength | net/net-http-server.c:409-436 | the `htqp_readint` arm on the mutable record computes exactly the pure arm |
| HtsServer.HtsData.SkipToLineEnd | net/net-http-server.c:438-453 | the `htqp_skiptoeoln` arm (with its fall-through) computes exactly the pure arm |
| HtsServer.HtsData.LineEnd | net/net-http-server.c:455-464 | the `htqp_eoln` arm computes exactly the pure arm |
| HtsServer.HtsData.LineFeed | net/net-http-server.c:466-494 | the `htqp_wantlf` arm computes exactly the pure arm |
| HtsServer.HtsData.NewLine | net/net-http-server.c:496-524 | the `htqp_linestart` arm computes exactly the pure arm |
| HtsServer.HtsData.LastLineFeed | net/net-http-server.c:526-543 | the `htqp_wantlastlf` arm computes exactly the pure arm |
| HtsServer.HtsData.Abort | net/net-http-server.c:549-553 | `htqp_fatal` marks the request bad and ends its header |
| HtsInvariant.ResetInv | net/net-http-server.c:243-249 | a freshly reset record satisfies the parser invariant with no bytes consumed |
| HtsInvariant.StartInv | net/net-http-server.c:243-249 | the start arm keeps the invariant |
| HtsInvariant.MethodInv | net/net-http-server.c:269-285 | handling the method word keeps the invariant |
| HtsInvariant.UriInv | net/net-http-server.c:286-292 | handling the URI word keeps the invariant |
| HtsInvariant.VersionInv | net/net-http-server.c:293-312 | handling the version word keeps the invariant |
| HtsInvariant.FieldValueInv | net/net-http-server.c:313-325 | handling a Host or Connection value keeps the invariant |
| HtsInvariant.WordEndInv | net/net-http-server.c:267-326 | the end of any word keeps the invariant |
| HtsInvariant.ReadToSpaceInv | net/net-http-server.c:251-327 | the `htqp_readtospace` arm keeps the invariant |
| HtsInvariant.BlankEndInv | net/net-http-server.c:343-366 | the end of blanks keeps the invariant |
| HtsInvariant.SkipSpcInv | net/net-http-server.c:329-367 | the `htqp_skipspc` arm keeps the invariant |
| HtsInvariant.ReadToColonInv | net/net-http-server.c:369-407 | the `htqp_readtocolon` arm keeps the invariant |
| HtsInvariant.ReadIntInv | net/net-http-server.c:409-436 | the `htqp_readint` arm keeps the invariant |
| HtsInvariant.SkipToEolnInv | net/net-http-server.c:438-453 | the `htqp_skiptoeoln` arm keeps the invariant |
| HtsInvariant.EolnInv | net/net-http-server.c:455-464 | the `htqp_eoln` arm keeps the invariant |
| HtsInvariant.WantLfInv | net/net-http-server.c:466-494 | the `htqp_wantlf` arm keeps the invariant, including the fatal end of a bad request line before its LF |
| HtsInvariant.LineStartInv | net/net-http-server.c:496-524 | the `htqp_linestart` arm keeps the invariant |
| HtsInvariant.WantLastLfInv | net/net-http-server.c:526-543 | the `htqp_wantlastlf` arm keeps the invariant |
| HtsInvariant.StepPreserves | net/net-http-server.c:242-557 | every arm other than `htqp_start` keeps the invariant and never clears the error mark |
| HtsInvariant.StepInv | net/net-http-server.c:242-557 | one turn of the inner loop keeps the invariant, with the bytes consumed added to the count |
| HtsInvariant.RunBlockInv | net/net-http-server.c:241-558 | the inner loop over a block keeps the invariant, counting every byte it consumes; an error mark survives it |
| HtsInvariant.CleanRequest | net/net-http-server.c:563-567 | a header done without an error mark has a known method, a non-empty URI, a known version, `header_size` equal to the bytes consumed, token offsets inside the header, and `-1 <= data_size < 2^31` |
| HtsFields.HeldPrefix | net/net-http-server.c:254-257 | a token of at most 15 bytes sits at the front of `word` |
| HtsFields.MethodExact | net/net-http-server.c:269-285 | the method is GET, HEAD, POST or OPTIONS iff the first token is exactly that word (case-sensitive); any other token marks the request bad |
| HtsFields.UriRequired | net/net-http-server.c:286-292 | the URI's offset and size are the second token's, and the request is bad iff it was already or the URI is empty |
| HtsFields.VersionExact | net/net-http-server.c:293-312 | the version is 1.0 / 1.1 iff the token is exactly `HTTP/1.0` / `HTTP/1.1`, an empty token means 0.9, and any other token marks the request bad |
| HtsFields.HeldCase | net/net-http-server.c:395-399 | comparing the buffered name with a known name at its length is comparing the whole token up to case |
| HtsFields.NameMatch | net/net-http-server.c:395-403 | Host, Connection and Content-Length are recognised up to case at exact length and set their flag; any other name clears all three |
| HtsFields.FieldValueMeaning | net/net-http-server.c:313-325 | a Connection value sets `QF_KEEPALIVE` iff it is `keep-alive` up to case; a non-empty Host value records its offset and size; both flags are cleared and no other flag changes |
| HtsFields.DigitsValueCons | net/net-http-server.c:419 | a leading digit contributes its value times a power of ten |
| HtsFields.AccDigitsValue | net/net-http-server.c:412-425 | the accumulated value is the start value shifted by the digits read plus their decimal value |
| HtsFields.AccDigitsStep | net/net-http-server.c:419 | one more digit multiplies the accumulator by ten and adds the digit |
| HtsFields.ContentLengthValue | net/net-http-server.c:409-436 | Content-Length is its decimal digits; no digits or overflow marks the request bad; `data_size` stays below 2^31 |
| HtsFields.TokenLimit | net/net-http-server.c:260-381 | a word or name goes fatal exactly when its length passes 4096 |
| HtsFields.HeaderLimit | net/net-http-server.c:329-485 | skipping blanks goes fatal exactly when `header_size` reaches 16384; skipping to the end of a line goes fatal exactly when `header_size` reaches 16384, or when the line it ends is a request line already marked bad (unless a lone CR ends the block) |
| HtsFields.EolnStep | net/net-http-server.c:455-495 | the end of a line is fatal exactly for a request line already marked bad, unless a lone CR ends the block; in an HTTP/1.x header line, the request becomes bad exactly when it already was or the line does not end with LF or CR LF |
| HtsFields.ContentLengthName | net/net-http-server.c:369-406 | the name Content-Length, in any case, followed by a colon raises `QF_DATASIZE`, adds the name and colon to `header_size` and moves to the blanks before the value |
| HtsFields.SecondContentLength | net/net-http-server.c:329-358 | at the first byte of a Content-Length value, the request becomes bad exactly when it already was or an earlier Content-Length set `data_size`; the first one starts reading digits from 0 |
| HtsFields.DigitsEnd | net/net-http-server.c:409-436 | digits that end inside the block clear `QF_DATASIZE`, add their count to `header_size`, keep the value read and go on to `htqp_skipspctoeoln` |
| HtsFields.BlanksToEoln | net/net-http-server.c:329-345 | blanks after a value are counted in `header_size` and lead to the end of the line |
| HtsFields.TrailingGarbage | net/net-http-server.c:329-495 | after the digits and blanks, the request becomes bad exactly when it already was or the line does not end with LF or CR LF |
| HtsFields.FatalMarks | net/net-http-server.c:549-553 | the fatal state marks the request bad and ends the header without consuming a byte |
| HtsComplete.DefaultExecute | net/net-http-server.c:101-122 | answers -413 iff a body length was parsed and -501 otherwise; marks every type except `htqt_empty` as an error; changes no other flag; leaves nothing pending |
| HtsComplete.DefaultAnswers | net/net-http-server.c:101-122 | with the default callback, a clean request is answered 413 (keep-alive cleared) or 501 with the error mark set, and the connection closes for 413 or without keep-alive |
| HtsComplete.Region | net/net-http-server.c:583-587 | the region passed to `execute` is made of non-empty blocks |
| HtsComplete.RegionExact | net/net-http-server.c:579-587 | the region is exactly the first `header_size` (+ `data_size` for POST) bytes of the input, truncated only when less is buffered |
| HtsComplete.RegionBytesAgree | net/net-http-server.c:579-582 | the `int` sum equals the intended length iff that length is below 2^31; above it the `int` sum is negative |
| HtsComplete.RegionLengthWraps | net/net-http-server.c:579-582 | a POST with a 47-byte header and Content-Length 2147483639 needs 2147483686 bytes, but the `int` sum is -2147483610 |
| HtsComplete.WriteError | net/net-http-server.c:199-208 | an error write appends one page and touches neither input nor pending state |
| HtsComplete.Finish | net/net-http-server.c:623-634 | the close rule leaves the input; on return it returns 0 in the closed state; otherwise it restarts at `htqp_start` |
| HtsComplete.CloseRule | net/net-http-server.c:623-634 | an error mark writes one 400 with keep-alive cleared; the connection closes iff nothing is pending and keep-alive is off |
| HtsComplete.SkipBody | net/net-http-server.c:599-609 | after a dispatch, the input left is a suffix, shorter by at least the header |
| HtsComplete.SkipBodyInput | net/net-http-server.c:599-604 | exactly `header_size` bytes, then min(`data_size`, bytes buffered) body bytes, are consumed |
| HtsComplete.SkipBodyResult | net/net-http-server.c:601-609 | when more is buffered than the body, the call returns `y - x` (minus the bytes after the body) with `parse_state` back at start and nothing written |
| HtsComplete.Refuse | net/net-http-server.c:610-616 | an error result leaves the input and ends in the closed or start state |
| HtsComplete.RefuseFacts | net/net-http-server.c:610-631 | an error result writes that code (keep-alive cleared for 413) and closes iff nothing is pending and keep-alive is off |
| HtsComplete.Complete | net/net-http-server.c:563-635 | completing a request consumes a prefix of the input, only appends to the output, and goes round again only for a clean request, after consuming at least its header |
| HtsComplete.Serve | net/net-http-server.c:567-617 | the clean branch consumes a prefix of the input and goes round again only after consuming at least the header |
| HtsComplete.ErrorsAnswer400 | net/net-http-server.c:564-631 | a request marked bad or whose header reached 16384 bytes is never dispatched (the callback does not matter); its header is discarded, one 400 is written with keep-alive cleared, and the connection closes |
| HtsComplete.LengthRequired | net/net-http-server.c:573-631 | a clean POST without Content-Length is answered 411 without calling `execute`; the header is consumed; it closes iff keep-alive is off |
| HtsComplete.BodyTooLarge | net/net-http-server.c:576-631 | a clean non-POST with a body length is answered 413 without calling `execute`, keep-alive cleared, and the connection closes |
| HtsComplete.PositiveWaits | net/net-http-server.c:594-597 | a positive `execute` result is returned at once with nothing consumed or written |
| HtsComplete.BodySkipped | net/net-http-server.c:599-609 | a 0 or `SKIP_ALL_BYTES` result consumes the header and then min(`data_size`, buffered) body bytes, returns `y - x` when more is buffered, and writes nothing unless the callback set the error mark |
| HtsComplete.ErrorResult | net/net-http-server.c:610-631 | any other negative result writes that code (keep-alive cleared for 413), consumes the header, and closes iff nothing is pending and keep-alive is off |
| HtsComplete.Turn | net/net-http-server.c:234-635 | one turn of the outer loop either returns, or keeps parsing with the invariant while strictly consuming input or bytes of the current copy |
| HtsComplete.TurnCases | net/net-http-server.c:560-635 | a turn runs the inner loop over the first block, then continues on the rest of the block chain, or completes the request and continues on the whole new input |
| HtsComplete.Loop | net/net-http-server.c:229-639 | the outer loop always ends in a return |
| HtsComplete.LoopKeeps | net/net-http-server.c:229-639 | the input left is a suffix of the input on entry, and error pages are only appended |
| HtsComplete.ParseExecute | net/net-http-server.c:216-640 | `hts_parse_execute` always returns |
| HtsComplete.ParseRestarts | net/net-http-server.c:224 | the parse state on entry does not matter: every call re-parses the unconsumed input from `htqp_start` |
| HtsConnection.Connection.constructor | net/net-http-server.c:216-227 | a connection holds its record and input with no error pages written |
| HtsConnection.Connection.WriteError | net/net-http-server.c:199-208 | appends one page and clears `QF_EXTRA_HEADERS` as `WriteError` says |
| HtsConnection.Connection.Finish | net/net-http-server.c:623-634 | the close rule on the mutable connection computes exactly `Finish` |
| HtsConnection.Connection.SkipBody | net/net-http-server.c:599-609 | the body skip on the mutable connection computes exactly `SkipBody` |
| HtsConnection.Connection.Refuse | net/net-http-server.c:610-616 | the error branch on the mutable connection computes exactly `Refuse` |
| HtsConnection.Connection.Serve | net/net-http-server.c:567-617 | dispatch on the mutable connection computes exactly `Serve` |
| HtsConnection.Connection.Complete | net/net-http-server.c:563-635 | completion on the mutable connection computes exactly `Complete` |
| HtsConnection.Connection.Turn | net/net-http-server.c:234-635 | one turn of the outer loop on the mutable connection computes exactly `Turn` |
| HtsConnection.Connection.ParseExecute | net/net-http-server.c:216-640 | `hts_parse_execute` on the mutable connection leaves exactly the state and return value of the pure `ParseExecute` |
| HttpReason.ReasonPhrase | net/net-http-server.c:139-172 | listed codes keep their code, and any other code is rewritten to 500 "Internal Server Error"; the code is always three digits |
| HttpReason.ReasonIdempotent | net/net-http-server.c:139-172 | looking up the rewritten code again changes nothing |
| HttpReason.ParserCodes | net/net-http-server.c:155-166 | the codes the parser writes have the phrases Bad Request, Length Required, Request Entity Too Large, Not Implemented |
| HttpReason.PhraseText | net/net-http-server.c:139-172 | every phrase is 2–24 characters with no ':', CR or LF |
| HttpWriter.Printed | net/net-http-server.c:833 | `%.1024s` copies at most 1024 bytes of the string, stopping before any NUL |
| HttpWriter.HeaderGate | net/net-http-server.c:838-864 | the writer produces bytes iff `http_ver >= HTTP_V10` or `http_ver == 0`; none for HTTP/0.9 |
| HttpWriter.HeaderFlags | net/net-http-server.c:852 | writing a header clears `QF_EXTRA_HEADERS` and no other flag; it stays set only when nothing is written |
| HttpWriter.ExtraHeadersOnce | net/net-http-server.c:850-852 | after one header the global extra headers are not written again |
| HttpWriter.HeaderConnection | net/net-http-server.c:849 | a reader of the header finds `Connection: keep-alive` iff `QF_KEEPALIVE` is set, else `close` |
| HttpWriter.HeaderContentLength | net/net-http-server.c:854-856 | a reader finds Content-Length, with the decimal `len`, iff `len >= 0` |
| HttpWriter.StatusCode | net/net-http-server.c:829-846 | the status line is `HTTP/1.1 ` then the rewritten code's three digits then a space |
| HttpWriter.HeaderEnds | net/net-http-server.c:858 | the header ends with CRLF, and with an empty line whenever Content-Length is written or no extra headers are |
| HttpWriter.HeaderFits | net/net-http-server.c:846-853 | the `snprintf` part never exceeds 2460 bytes, below the 4032-byte limit |
| HttpWriter.ErrorPageCode | net/net-http-server.c:174-192 | the error page's title holds the rewritten code's digits |
| HttpWriter.ErrorPageLength | net/net-http-server.c:190-195 | a non-204 error writes the header then the page, returns the page length, and announces exactly that length in Content-Length |
| HttpWriter.NoContentResponse | net/net-http-server.c:185-187 | 204 is header only: returns 0 and carries no Content-Length |
| HttpWriter.ErrorPageBare | net/net-http-server.c:184-197 | for HTTP/0.9 an error is the page alone |
| HttpWriter.ErrorBodyFits | net/net-http-server.c:189-192 | the page fits its 1024-byte buffer |
| HttpOutput.WriteBasicHeader | net/net-http-server.c:835-865 | appends exactly the header bytes, returns their count and clears `QF_EXTRA_HEADERS` when it writes |
| HttpOutput.WriteErrorRaw | net/net-http-server.c:184-197 | appends exactly the error response and returns the page length (0 for 204) |
| HttpHeader.NameEndFacts | net/net-http-server.c:786-789 | the name scan stops at the first ':' or LF, or at the end |
| HttpHeader.LineEndFacts | net/net-http-server.c:817-819 | the line skip stops at the first LF, or at the end |
| HttpHeader.SkipBlankFacts | net/net-http-server.c:797-799 | leading spaces and tabs are skipped |
| HttpHeader.ValueEndFacts | net/net-http-server.c:801-803 | the value runs to the first CR or LF |
| HttpHeader.TrimEndFacts | net/net-http-server.c:804-806 | trailing spaces and tabs are trimmed |
| HttpHeader.FieldValueShape | net/net-http-server.c:796-806 | a value holds no CR or LF and neither starts nor ends with a blank |
| HttpHeader.NextLine | net/net-http-server.c:817-822 | moving to the next line makes progress unless at the end |
| HttpHeader.FindEnd | net/net-http-server.c:790-793 | a line that reaches the end with no ':' or LF ends the search with -1 |
| HttpHeader.FindHit | net/net-http-server.c:794-814 | a name of exactly `arg_len` bytes equal up to case yields that line's value |
| HttpHeader.FindNext | net/net-http-server.c:794-822 | any other line is skipped through its LF |
| HttpHeader.FindCaseInsensitive | net/net-http-server.c:795 | two NUL-free names equal up to case find the same field |
| HttpHeader.FindField | net/net-http-server.c:794-814 | a line `name: value CRLF` is found by its name in any case |
| HttpHeader.ClearOut | net/net-http-server.c:791-825 | a failed lookup returns -1 with an empty string in the buffer and nothing else changed |
| HttpHeader.CopyOut | net/net-http-server.c:807-813 | copies at most `b_len - 1` bytes of the value, NUL-terminates, returns the count and changes nothing beyond |
| HttpHeader.ScanName | net/net-http-server.c:786-789 | the name loop stops where `NameEnd` says |
| HttpHeader.SkipLine | net/net-http-server.c:817-822 | the line loop stops where `NextLine` says |
| HttpHeader.ScanValue | net/net-http-server.c:796-806 | the value loops delimit exactly `FieldValue` |
| HttpHeader.SearchName | net/net-http-server.c:785-823 | the search loop finds a field iff `HeaderValue` does, at the line whose value it is |
| HttpHeader.GetHttpHeader | net/net-http-server.c:782-826 | the buffer and result are what `HeaderValue` prescribes: the value truncated to `b_len - 1` bytes and NUL-terminated with its length, or -1 and an empty string |
| HttpDate.MonthName | net/net-http-server.c:675 | every month name (and the filler past December) is three bytes |
| HttpDate.DowName | net/net-http-server.c:676 | every weekday name (and the filler) is three bytes |
| HttpDate.MonthLen | net/net-http-server.c:679-711 | a month has 28 to 31 days |
| HttpDate.DaysBeforeLeap | net/net-http-server.c:764-770 | a leap year adds one day before every month after February |
| HttpDate.DaysBeforeYear | net/net-http-server.c:679-680 | the twelve months sum to the year's length |
| HttpDate.MonthSplitInYear | net/net-http-server.c:713-721 | the month walk over a day of the year stops at a real month with a day inside it, and the days before it plus that day give the day of the year back |
| HttpDate.YearSplitFacts | net/net-http-server.c:692-706 | the year cascade gives a day inside its year and a year within the four-year cycle, and the days of the years before it plus that day give the day number back |
| HttpDate.DayBound | net/net-http-server.c:685-690 | a 32-bit time is at most day 24855 |
| HttpDate.DateOfDayInRange | net/net-http-server.c:722-723 | every day up to 24855 gives fields in the ranges the source asserts |
| HttpDate.FieldsInRange | net/net-http-server.c:722-723 | the assertion in `gen_http_date` holds for every 32-bit time |
| HttpDate.FormatHttpDate | net/net-http-server.c:682-729 | the date text is always 29 bytes |
| HttpDate.UpToNul | net/net-http-server.c:736 | the C string is the bytes before the first NUL |
| HttpDate.DigitRun | net/net-http-server.c:736 | `%d` reads exactly the leading digits |
| HttpDate.ScanDate | net/net-http-server.c:736 | a partial scan counts fewer than 8 conversions |
| HttpDate.MonthIndex | net/net-http-server.c:740-744 | the month loop stops at the first month whose name equals the token, or at 12 |
| HttpDate.ParseHttpDate | net/net-http-server.c:731-773 | a parsed time is a 32-bit value |
| HttpDate.DecodeDate | net/net-http-server.c:737-772 | a decoded time is a 32-bit value |
| HttpDateRoundTrip.MonthNamesDistinct | net/net-http-server.c:675 | the twelve month names are distinct |
| HttpDateRoundTrip.MonthIndexOfName | net/net-http-server.c:740-744 | the month loop finds the index of every month's own name |
| HttpDateRoundTrip.ScanRender | net/net-http-server.c:725-736 | scanning a rendered date reads back its weekday, day, month name, year, hour, minute, second and `GMT` |
| HttpDateRoundTrip.RenderNoNul | net/net-http-server.c:725-728 | a rendered date holds no NUL, CR or LF |
| HttpDateLine.DateNoLf | net/net-http-server.c:844-847 | the date written into a response header, from `gen_http_date` or `cur_http_date`, holds no LF, so it meets the one-line condition of the header and error-page lemmas |
| HttpDateRoundTrip.SecondsOfFields | net/net-http-server.c:685-771 | days, hours, minutes and seconds split off a time multiply back to it |
| HttpDateRoundTrip.DayNumberOfDate | net/net-http-server.c:691-770 | the day count of `gen_http_time` inverts the year and month split of `gen_http_date` |
| HttpDateRoundTrip.DecodeFull | net/net-http-server.c:745-772 | a full scan with a known month, year, time of day in range and `GMT` decodes to its seconds |
| HttpDateRoundTrip.ParseRender | net/net-http-server.c:731-773 | parsing the rendering of in-range fields gives their seconds |
| HttpDateRoundTrip.ParseFormat | net/net-http-server.c:682-773 | `gen_http_time` inverts `gen_http_date` for every time from 0 to 2^31-1 |
| HttpDateRoundTrip.ParseFormatNegative | net/net-http-server.c:684 | a negative time renders as the epoch and parses back as 0 |
| HttpDateCodec.GenHttpDate | net/net-http-server.c:682-729 | the buffer holds exactly `FormatHttpDate(time)` |
| HttpDateCodec.Calendar | net/net-http-server.c:691-721 | the weekday, year and month computation gives exactly `DateOfDay` |
| HttpDateCodec.YearOfCycle | net/net-http-server.c:695-706 | the year cascade gives exactly `YearSplit` |
| HttpDateCodec.MonthOfYear | net/net-http-server.c:713-718 | the month loop gives exactly `MonthSplit` |
| HttpDateCodec.MonthOf | net/net-http-server.c:740-744 | the month lookup loop gives `MonthIndex`, and a found month's name equals the token |
| HttpDateCodec.DayCount | net/net-http-server.c:763-770 | the day count gives exactly `DayNumber` |
| HttpDateCodec.Decode | net/net-http-server.c:737-772 | the checks return -argc (or -8) and -11 to -16 exactly where `DecodeDate` fails, leaving `*time`; otherwise 0 and the seconds |
| HttpDateCodec.GenHttpTime | net/net-http-server.c:731-773 | the return code and `*time` are what `ParseHttpDate` prescribes |
| HttpDateCache.DateCache.constructor | net/net-http-server.c:672-673 | the cache starts at time 0 with the epoch's date text |
| HttpDateCache.EpochDate | net/net-http-server.c:672 | the initial text is the rendering of time 0 |
| HttpDateCache.DateCache.Current | net/net-http-server.c:775-780 | the result is the rendering of `now`; the text is kept when the clock has not moved |

## Left out

- The connection vtable and lifecycle callbacks (`ct_http_server`, `hts_init_accepted`,
  `hts_close_connection`, `hts_std_wakeup`, `hts_std_alarm`, `hts_do_wakeup`). They are
  transport plumbing.
- Output queueing. `write_http_error`'s `calloc`/`mpq_push_w`/`job_signal`,
  `hts_write_packet` and `http_flush` are not modelled. A written error is recorded as the
  arguments it was rendered from (`ErrorPage`), and `ErrorPage.Bytes()` gives its bytes.
  `connection_write_close` is the `Closed` parse state.
- The `raw_message` library. The input is a sequence of non-empty blocks. `rwm_skip_data`
  is `Skip` and `rwm_trunc` is `Trunc`. A negative length passed to `rwm_trunc` (see
  Findings) is not modelled: the region is specified by the intended length.
- The connection status: `conn_working`, `C_ERROR`/`C_STOPPARSE` and `pending_queries` are
  inputs. Only the `execute` callback can add pending queries. Nothing in the model changes
  the status or the flags.
- The statistics counters `http_queries`, `http_queries_size` and `http_bad_headers`.
  They are unsynchronised counters that nothing reads.
- Logging (`vkprintf`, the `fprintf` in `htqp_fatal`) and the global clock `now`. The clock
  is the `now` parameter of `DateCache.Current`. The date text the writers use is a
  parameter (`Env.now`).
- `QF_TRANSFER_ENCODING`, `QF_TRANSFER_ENCODING_CHUNKED` and chunked bodies. The flags
  are declared but never set.
- Static buffers and the asserts on them. `B_SZ`, the 1024-byte error buffer and
  `date_buff` are replaced by sequences. `HeaderFits` and `ErrorBodyFits` show that the
  asserts on their sizes hold. The `%.256s`/`%.1024s` precisions are `Printed`.
- `date` non-zero in `write_basic_http_header_raw`, that is, `gen_http_date` of an explicit
  time. The writers take the date text as a parameter, and the parser only ever passes 0
  (the cached date).
- `sscanf` is modelled by `ScanDate`, with its conversion count. A `%d` value outside the
  `int` range is not modelled: the model reads the digits as an unbounded number.
- HtsServer.HtsData.ScanWord: the store into `word` is guarded by `0 <= wlen < 15`,
  where the source tests only `wlen < 15`. `wlen` starts at 0 and only grows, so the
  extra bound never changes the outcome. It only lets Dafny check the index.
- `extra` (a pointer) is a `nat`, and `extra_double`/`extra_double2` are `real`s. They only
  matter to the `memset` at `htqp_start`, which zeroes them.

## Findings

| source | as written | input that shows it | evidently intended | confidence | as-written member | corrected member |
|---|---|---|---|---|---|---|
| net/net-http-server.c:579-587 | `int bytes = header_size + data_size` can overflow `int` for a POST, because `data_size` may be up to 2147483639 | `POST / HTTP/1.1\r\nContent-Length: 2147483639\r\n\r\n` (47-byte header): `bytes` wraps to -2147483610, so `rwm_trunc` gets a negative length | the region's length is the exact sum, truncated to what is buffered | not executed | HtsComplete.RegionLengthWraps | HtsComplete.RegionExact |
