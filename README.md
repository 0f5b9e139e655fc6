# Habraproxy response transcoding, modelled in Dafny

Habraproxy is a small HTTP proxy in front of habrahabr.ru. For each client connection it does four things:
- It reads the request's header block.
- It answers a blacklisted path itself with a fixed redirect.
- Otherwise it sends the header block, with `Host` rewritten, upstream.
- It reads the response body, either by `Content-Length` or by chunked transfer coding.

The response is then rebuilt. A `Location` pointing at the real site is turned into a local link on a 301/302. A gzipped HTML page is decompressed and rewritten:
- links to the real site become local;
- every six-letter word gets a trademark sign.

The page is then recompressed. The result is written back: the header block first, then the body, re-chunked when the upstream response was chunked.

This project models that core, one Dafny module per source file:

| module | source | form |
|---|---|---|
| `HeaderSet` | `proxy/headers.py` | The header set is an ordered association list, with the request/status line under the reserved key `general`. A class `Headers` holds the mutable copy. |
| `UpstreamRequest` | `proxy/request.py` | The chunked-body decoder (a loop over a byte stream), the body reader and `make_request`. |
| `ResponseEntity` | `proxy/response.py` | The response predicates, the redirect rewrite, the chunk re-encoder (a loop) and the output order of `__iter__`. |
| `HtmlParser` | `proxy/parser.py` | The position arithmetic and the script/style switch on top of an abstract tokenizer. |
| `Rewriter` | `proxy/modifier.py` | The line list with its per-line column drift, the splicing operations, and the link and word callbacks. |
| `Handler` | `proxy/handler.py` | The decision flow of `handle` and `handle_disabled_path`. |
| `Draft` | `proxy.py` | The earlier single-file variants of the header set, the chunk codec, pack/unpack and `make_request`. |

There are also helper modules:
- `Common`: bytes, the error wrapper, and the socket files. `rfile` is the unread rest of a byte stream; `wfile` is an append-only log of writes.
- `PyStr`, `PyInt`, `OrderedMap`: the Python built-ins the code relies on, namely `str.strip`, `split`, `splitlines`, `count`, `replace`, `rindex`, `int(x, base)`, `format(n, 'x')` and dict insertion order.
- `Settings`: the fixed target and local links.

Parts that are state changes in the source are imperative here:
- classes with `modifies` clauses;
- `while` loops with invariants, as in the chunk decoder, the chunk encoder, `replace_lines` and the write loop.

Each such method is proved against a specification function. The properties of the source are proved about those functions as lemmas.

The compression codec (`gzip` plus UTF-8) and the HTML tokenizer are parameters: `Codec` is a pair of functions, and `Tokenizer` maps a document to its event sequence.

Where the written description of the system and the code disagree, the model follows the code:
- `get_chunks` fails (division by zero, or a zero step) on an empty payload or one shorter than the chunk count.
- The header comparisons in `is_chunked` and `is_gzipped_html` are case-sensitive.
- The re-encoder does not always produce N or N+1 data pieces. With `cs = L div N` and `r = L mod N`, it produces N pieces when `2r < cs`, N+1 when `cs <= 2r < 3cs`, and more otherwise; for example L=5, N=3 gives cs=1 and r=2, so 5 pieces of one byte (`ResponseEntity.PiecesCount`).
- The draft header serialiser turns an empty header set into a lone CRLF.

## Model

| member | source | states |
|---|---|---|
| HeaderSet.Field | proxy/headers.py:9-14 | A parsed line's key never contains a colon, and a non-`general` key is the text up to the first colon. |
| HeaderSet.FieldSplit | proxy/headers.py:10-12 | A line `k:w` with no colon in `k` becomes key `k`, verbatim, with the value `w` stripped. |
| HeaderSet.FieldGeneral | proxy/headers.py:13-14 | A line without a colon is stored, stripped, under `general`. |
| HeaderSet.ParsedLookup | proxy/headers.py:8-14 | After parsing, each key holds the value of its last line, and keys keep the order of their first occurrence. |
| HeaderSet.Headers.constructor | proxy/headers.py:6-14 | The items are the initial mapping overwritten by the parsed lines in order, and stay free of duplicate keys. |
| HeaderSet.Serialize | proxy/headers.py:16-23 | The general line, then `key: value` per item in insertion order, each followed by CRLF, then a final CRLF. |
| HeaderSet.Headers.ToBytes | proxy/headers.py:16-23 | Serialising removes `general`. Without `general` it is a `KeyError` and the map is unchanged, so a second serialisation fails. |
| HeaderSet.ReadBlockLines | proxy/headers.py:25-33 | Reading lines up to the first bare CRLF gives back exactly the lines before it and leaves the rest unread. |
| HeaderSet.ReadBlock | proxy/headers.py:25-33 | No collected line is empty or a bare CRLF; the unread rest is a suffix of the input. |
| HeaderSet.Headers.FromReader | proxy/headers.py:25-33 | The new header set is the parse of the lines read before EOF or the blank line, and the stream advances past them. |
| HeaderSet.RoundTrip | proxy/headers.py:6-33 | Parse a serialised header set whose general line has no colon and whose values are stripped, and you get the same mapping back, without consuming what follows. |
| HeaderSet.WireSerialize | proxy/headers.py:16-23 | The encoded serialisation is the encoded lines, each with CRLF, followed by one more CRLF. |
| HeaderSet.Headers.Copy | proxy/request.py:15 | `copy(headers)` holds the same items, and later changes to it leave the original alone. |
| HeaderSet.Headers.Set | proxy/request.py:16 | Assigning a key overwrites its value in place, or appends it when absent. |
| UpstreamRequest.Request.constructor | proxy/request.py:14-16 | The new request's headers are the caller's with `Host` set to `habrahabr.ru`. Every other header is unchanged and the caller's object is not touched. |
| UpstreamRequest.Request.Path | proxy/request.py:63-66 | With no general line it is a `KeyError`; otherwise the path is a whitespace-free word. |
| UpstreamRequest.PathOfLine | proxy/request.py:63-66 | The path of `method target version` is `target`. |
| UpstreamRequest.ReadChunkSize | proxy/request.py:33-38 | One line is read, and a second when the first is a bare CRLF. The size is the hexadecimal value of the stripped line, or an error, and it agrees with the decoder specification `Chunks`. |
| UpstreamRequest.HexSize | proxy/request.py:38 | A size exists only for a non-empty line. |
| UpstreamRequest.SizeLineHex | proxy/request.py:38 | The size line the encoder writes parses back to the piece length. |
| UpstreamRequest.ReadChunk | proxy/request.py:28 | Reads exactly the announced number of bytes, or the rest of the stream when it is shorter, and the decoder specification continues from there. A size of -1 reads to the end, and a smaller size is the `ValueError` of `read`, which is also what `Chunks` gives. |
| UpstreamRequest.ReadChunked | proxy/request.py:24-31 | The loop's result is `Chunks` of the stream: the in-order concatenation of the chunks before the first zero size and their count, leaving the stream just after the zero-size line. |
| UpstreamRequest.Chunks | proxy/request.py:24-38 | Decoding consumes input, and its only failure is `ValueError`. |
| UpstreamRequest.ChunksOfLast | proxy/request.py:26-38 | A zero size line ends decoding with an empty payload and count 0. |
| UpstreamRequest.DecodeFrames | proxy/request.py:24-38 | The `Frame`s of non-empty pieces followed by the last frame decode to the concatenated pieces and their count. |
| UpstreamRequest.WikiExample | proxy/request.py:24-38 | `4\r\nWiki\r\n0\r\n\r\n` decodes to `Wiki` with count 1. |
| UpstreamRequest.ChunkRoundTrip | proxy/request.py:24-38 | Decoding the frames that `get_chunks` produces gives back the packed payload, with at least N chunks. |
| UpstreamRequest.ReadBody | proxy/request.py:44-48 | `Content-Length` is checked before `Transfer-Encoding` and gives chunk count 0. With neither header there is no body and nothing is consumed. |
| UpstreamRequest.NegativeLengthRaises | proxy/request.py:20-21 | `Content-Length: -n` with n >= 2 makes `read` raise, so the body is a `ValueError`. |
| UpstreamRequest.MinusOneLengthReadsAll | proxy/request.py:20-21 | `Content-Length: -1` makes `read(-1)` take the whole rest of the stream as the body. |
| PyInt.ParseNegatedFormat | proxy/request.py:20 | `int('-' + str(n)) == -n`. |
| UpstreamRequest.ContentLengthBody | proxy/request.py:18-22 | With `Content-Length: n`, exactly the next n bytes are the body. |
| UpstreamRequest.Request.GetData | proxy/request.py:18-22 | A non-numeric length, or a length below -1, is a `ValueError`. Otherwise the response holds what `ReadBody` reads (the rest of the stream for -1) and is the response `Built` describes. |
| UpstreamRequest.Request.GetChunkedData | proxy/request.py:24-31 | The response holds the decoded payload and chunk count, or the decoding error. |
| UpstreamRequest.Fetched | proxy/request.py:40-48 | The upstream exchange fails with `ValueError` when the body cannot be read: a non-numeric length, a length below -1, or a malformed chunk size. Otherwise the reply carries that body, with its headers after the redirect rewrite. |
| UpstreamRequest.Request.MakeRequest | proxy/request.py:40-48 | The serialised request is sent before anything is read, and without a general line nothing is sent. The response is the one `Fetched` describes for the upstream bytes. Afterwards the request's header set is the old one without `general`, since serialising pops it; when it was absent the set is unchanged. |
| ResponseEntity.SecondWord | proxy/response.py:71-74 | With no general line it is a `KeyError`; otherwise the result is a whitespace-free word. |
| ResponseEntity.Status | proxy/response.py:71-74 | A missing start line is a `KeyError` and a start line of fewer than two words an `IndexError`. Every other failure is the `ValueError` of `int`. |
| ResponseEntity.StatusOfLine | proxy/response.py:71-74 | The status of `version code reason` is the integer `code`. |
| ResponseEntity.Redirected | proxy/response.py:35-41 | A missing or malformed status is an error. The headers change only for status 301/302 with a `Location` that contains the target link. |
| ResponseEntity.RedirectedFixed | proxy/response.py:35-41 | Every header but `Location` is kept. After a 301/302 the location no longer contains the target link, and applying the rewrite again changes nothing. |
| ResponseEntity.Response.FixRedirect | proxy/response.py:35-41 | The header set becomes the rewritten one, or on error stays as it was. |
| ResponseEntity.Response.constructor | proxy/response.py:10-14 | The new response holds the given headers, payload and chunk count, with no text yet. |
| ResponseEntity.Response.Create | proxy/response.py:10-16 | `unpack_data` runs, then `fix_redirect`, and either can fail. The resulting response is the reply `Built` describes. |
| ResponseEntity.Built | proxy/response.py:10-16 | A built reply keeps payload and count; its headers are a fixed point of the redirect rewrite; it holds text exactly when it is gzipped HTML. |
| ResponseEntity.Unpacked | proxy/response.py:76-79 | Only gzipped HTML is decompressed, and only its decompression can fail. |
| ResponseEntity.Response.UnpackData | proxy/response.py:76-79 | For gzipped HTML the text becomes the decoded payload. Otherwise the text and payload are untouched. |
| ResponseEntity.Response.SetData | proxy/response.py:30-33 | Assigning text stores it, and re-packs the payload only for gzipped HTML. |
| ResponseEntity.LastFrame | proxy/response.py:56 | The final frame is `0\r\n\r\n`. |
| ResponseEntity.Pieces | proxy/response.py:50-55 | The `get_chunks` split: no piece is empty, and there are pieces exactly when the payload is non-empty. |
| ResponseEntity.PiecesConcat | proxy/response.py:48-55 | The data pieces concatenate to the packed payload. |
| ResponseEntity.PiecesShape | proxy/response.py:48-55 | Every piece but the last has length `cs`. The last is non-empty and shorter than 1.5 cs, and there are pieces exactly when the payload is non-empty. |
| ResponseEntity.PiecesCount | proxy/response.py:50-55 | With `cs = L div N`, there are at least N pieces: exactly N when `2 (L mod N) < cs`, and N+1 when `cs <= 2 (L mod N) < 3 cs`. |
| ResponseEntity.ChunkFrames | proxy/response.py:48-56 | The encoding exists exactly when `N >= 1` and `L >= N`, and it ends with the final frame. |
| ResponseEntity.SplitFrames | proxy/response.py:51-55 | The loop yields the frame of each piece in order, absorbing a short tail into the last piece. |
| ResponseEntity.Response.GetChunks | proxy/response.py:48-56 | Yields nothing when `Chunked` (`is_chunked`) does not hold; otherwise it yields the `ChunkFrames` encoding or its failure. |
| ResponseEntity.Emitted | proxy/response.py:18-24 | The header bytes come first, and without a general line nothing is emitted. |
| ResponseEntity.Response.Iterate | proxy/response.py:18-24 | The header bytes come first, then the chunk frames when chunked, else the payload when there is one. Iterating removes `general` from the headers, and leaves them unchanged when it is absent (the `KeyError` path). |
| HtmlParser.DataPosSplit | proxy/parser.py:14-17 | For a run with k line feeds, the end line is the start line + k and the end column is the length of its last line. |
| HtmlParser.DataPosAdvance | proxy/parser.py:12-21 | For a run that does not end in a line feed, the end position is where reading the delivered text from the start position ends. For text without character references, that is the tokenizer's cursor. |
| HtmlParser.StartTagPos | proxy/parser.py:23-28 | It fails with `ValueError` exactly when no line feed precedes the end index; otherwise the span starts at the given position. |
| HtmlParser.StartTagPosAdvance | proxy/parser.py:25-27 | The end line is 1 + the line feeds before the end index, and the end column is measured from the last of them, i.e. the cursor after reading the raw text up to the end index. |
| HtmlParser.StartTagOnFirstLine | proxy/parser.py:26 | A start tag ending on line 1 makes `rindex` fail. |
| HtmlParser.Step | proxy/parser.py:30-44 | An event records at most one callback call; the callbacks themselves are not run here. The only failure a step introduces is the `ValueError` of `rindex` when the position of a registered start tag is computed, before its call would be made. Text is reported only when `data` is registered, text is enabled and the run is not all whitespace. A start tag is reported only when registered. |
| HtmlParser.RunRegistered | proxy/parser.py:31-44 | Every recorded call goes to a registered callback. |
| HtmlParser.RunSilent | proxy/parser.py:30-41 | Inside script or style, and with no closing raw-text tag, no text call is made and text stays disabled. |
| HtmlParser.RunFlag | proxy/parser.py:35-41 | The text switch after a run depends only on the script/style start and end tags: any such end tag re-enables it, whichever tag opened it. |
| HtmlParser.ScriptExample | proxy/parser.py:30-44 | The text of `<script>alert(1)</script>` is never reported; the text after it is, with its position. |
| HtmlParser.Parser.constructor | proxy/parser.py:6-10 | Text is enabled, the end index is 0 and nothing has been called. |
| HtmlParser.Parser.HandleData | proxy/parser.py:30-33 | The parser's state advances by one text step. |
| HtmlParser.Parser.HandleEndTag | proxy/parser.py:35-37 | The parser's state advances by one end-tag step. |
| HtmlParser.Parser.HandleStartTag | proxy/parser.py:39-44 | The switch is updated before the callback runs, and the position uses the recorded end index. |
| HtmlParser.Parser.ParseStartTag | proxy/parser.py:46-48 | The end index is recorded before the tag is handled, so the reported position is that tag's own. |
| HtmlParser.Run | proxy/parser.py:30-48 | Feeding the tokenizer's events only appends to the recorded calls, and after the first position failure (the `ValueError` of `get_starttag_pos`) nothing more happens. The callbacks' own exceptions are accounted for in `Rewriter.Modified`, where the first of them takes precedence. |
| HtmlParser.Parser.Feed | proxy/parser.py:30-48 | Feeding a document handles the tokenizer's events in order until one fails, as `Run` says. |
| Rewriter.NewOffsets | proxy/modifier.py:15-22 | With an end column the line's drift grows by the replacement length minus the span length. With end 0 the map is unchanged. No other line's drift changes. |
| Rewriter.Modifier.CalculateOffset | proxy/modifier.py:15-25 | Returns the shifted span and updates only the drift map, as `NewOffsets` says. |
| Rewriter.SpliceLineFrame | proxy/modifier.py:53-59 | `SpliceLine` (`replace_line`) keeps the line count and every other line, updates the drift map, and fails only on a missing line (`IndexError`). |
| Rewriter.SpliceFreshLine | proxy/modifier.py:53-59 | On a line without drift, the line becomes `old[:s] + text + old[e:]`, and its drift becomes the length change. |
| Rewriter.Modifier.ReplaceLine | proxy/modifier.py:53-59 | The new state and result are those of `SpliceLine`. |
| Rewriter.SpliceEachOrdered | proxy/modifier.py:15-59 | Successive replacements at disjoint, increasing original spans of one line give the line that splices all of them into the original. |
| Rewriter.TwoEditsExample | proxy/modifier.py:15-59 | `abcdefg` with [2,4)→`XY` then [5,6)→`Z` gives `abXYeZg`. |
| Rewriter.SpliceLinesShape | proxy/modifier.py:61-70 | After `SpliceLines` (`replace_lines`), every line ends up as `Placed` says: item i lands on line start+i; the first item from the start column to the end of its line, the item on the end line from column 0 to the end column, and the others whole. |
| Rewriter.SpliceFreshLines | proxy/modifier.py:61-70 | On lines without drift, that placement, written out. |
| Rewriter.SpliceLinesMissing | proxy/modifier.py:61-70 | A missing start line is an `IndexError` that changes nothing. |
| Rewriter.Modifier.ReplaceLines | proxy/modifier.py:61-70 | The loop's state and result are those of `SpliceLines`. |
| Rewriter.FixedLinkCases | proxy/modifier.py:28-29 | A bare `href` is a `TypeError`. Nothing is rewritten when there is no `href` or it does not contain the target link. |
| Rewriter.RewrittenAttrs | proxy/modifier.py:28-34 | The attributes keep first-occurrence order with last-duplicate values, and `href` has every target link replaced by the local one, so none remains. |
| Rewriter.LinkOverLines | proxy/modifier.py:35-38 | Across several lines the tag goes on the first line, the lines in between become empty, and the end line keeps its text from the end column. |
| Rewriter.LinkUntouched | proxy/modifier.py:27-29 | Without a target link, `LinkFixed` (`fix_link`) leaves the document unchanged. |
| Rewriter.Modifier.FixLink | proxy/modifier.py:27-40 | The new state and result are those of `LinkFixed`. |
| Rewriter.Wrap | proxy/modifier.py:73 | The decorated text is longer by exactly the number of marks added. |
| Rewriter.UnwrapWrap | proxy/modifier.py:73 | Removing the marks after six-letter runs gives back the original text: decorating only inserts marks. |
| Rewriter.WrapCount | proxy/modifier.py:73-74 | Some mark is added exactly when the text has a maximal run of exactly six word characters. |
| Rewriter.WrapUnmarked | proxy/modifier.py:73-74 | With no mark added the text is unchanged. |
| Rewriter.BananaExample | proxy/modifier.py:73 | `banana` gets the mark and `bananas` does not. |
| Rewriter.WordsUntouched | proxy/modifier.py:74 | In `WordsWrapped` (`wrap_words`), a run without a six-letter word writes nothing. |
| Rewriter.WordsOnOneLine | proxy/modifier.py:79-80 | On one line without drift, the run is replaced by its decorated text, and the line's drift grows by the mark count. |
| Rewriter.Modifier.WrapWords | proxy/modifier.py:72-80 | The new state and result are those of `WordsWrapped`. |
| Rewriter.ApplyAllLength | proxy/modifier.py:53-70 | No sequence of callbacks changes the number of lines. |
| Rewriter.ModifyQuiet | proxy/modifier.py:42-51 | When no callback edits anything, the output of `Modified` (`modify_data`) is the input's `splitlines()` joined by line feeds. |
| Rewriter.ModifyQuietIdentity | proxy/modifier.py:49-51 | For such a page with only line feeds as breaks and no trailing break, the output is the input itself. |
| Rewriter.ModifyLength | proxy/modifier.py:49-50 | The rewritten document has as many lines as the input. |
| Rewriter.Modifier.constructor | proxy/modifier.py:10-13 | There are no lines and no drift. |
| Rewriter.Modifier.Callback | proxy/modifier.py:43-48 | `a` goes to `fix_link` and `data` to `wrap_words`. |
| Rewriter.Modifier.ModifyData | proxy/modifier.py:42-51 | The final state and output are those of `Modified`: split the page, feed it, then apply the callbacks in order. |
| Handler.DisabledReply | proxy/handler.py:32-39 | A path outside the blacklist is a `KeyError`. An entry mapped to None writes nothing, and at most one block is written. |
| Handler.LoginRedirect | proxy/handler.py:11-39 | `/auth/login/?checklogin=true` writes exactly `HTTP/1.1 302 Found\r\nLocation: /\r\n\r\n`. |
| Handler.HandleDisabledPath | proxy/handler.py:32-39 | It writes what `DisabledReply` says, once, and reports its error. |
| Handler.Handled | proxy/handler.py:17-30 | An upstream request is made only for a non-empty header set whose path is valid and not blacklisted. Otherwise the output is empty or the fixed redirect. |
| Handler.Dispatched | proxy/handler.py:20-30 | The same, once the header set is known to be non-empty. |
| Handler.Routed | proxy/handler.py:21-30 | A blacklisted path never reaches upstream. |
| Handler.Forwarded | proxy/handler.py:24 | Exactly the serialised request is sent upstream. |
| Handler.LoginNeverForwarded | proxy/handler.py:17-22 | A login-check request, whatever its method and version, is answered with the fixed redirect and sends nothing upstream. |
| Handler.Served | proxy/handler.py:26-30 | The bytes written start with the response's header block. |
| Handler.RewriteOnlyGzippedHtml | proxy/handler.py:26-28 | The page rewriter can affect the output only when `GzippedHtml` (`is_gzipped_html`) holds. |
| Handler.QuietPageResent | proxy/handler.py:26-30 | A gzipped page the rewriter leaves untouched is re-packed from its own text and sent as the response would be without rewriting. |
| Handler.Handle | proxy/handler.py:17-30 | The bytes written, the bytes sent upstream and the result are those of `Handled`. When nothing is sent upstream, nothing is read from it. |
| Handler.Dispatch | proxy/handler.py:20-30 | The same for `Dispatched`. |
| Handler.Route | proxy/handler.py:21-30 | The same for `Routed`. |
| Handler.Forward | proxy/handler.py:24-30 | The serialised request is sent. On a fetch error nothing is written; otherwise the output is that of `Served`. |
| Handler.Respond | proxy/handler.py:26-30 | The page is rewritten only when it is gzipped HTML, then the response's iteration is written in order. |
| Handler.WriteAll | proxy/handler.py:29-30 | The write log grows by exactly the parts, in order. |
| Draft.Fields | proxy.py:99-107 | Line for line, the draft reads a header block as the package's `HeaderSet.Fields` does, except that a line without a colon is kept unstripped as `general` where the package strips it. |
| Draft.StartLineKept | proxy.py:103-107 | A line without a colon is stored as `general` unstripped, unlike the package version. A line with a colon is split as in the package. |
| Draft.Headers.constructor | proxy.py:99-107 | The items are the parsed lines with the last value per key, in first-insertion order. |
| Draft.Serialize | proxy.py:109-118 | Joining the lines and a final CRLF element with CRLF gives each entry's line followed by CRLF, then one more CRLF. |
| Draft.SerializeBlock | proxy.py:109-118 | Every line is emitted in insertion position, `general` included. A non-empty header set ends in `\r\n\r\n`, and an empty one is a lone CRLF. |
| Draft.InsertionOrderExample | proxy.py:109-118 | A general line inserted after `Host` is emitted after it, keeping its own CRLF. |
| Draft.Headers.FromReader | proxy.py:120-128 | It reads up to EOF or the blank line, as in the package. |
| Draft.Headers.Copy | proxy.py:136 | `copy(headers)` holds the same items. |
| Draft.Headers.Set | proxy.py:137 | Assigning a key overwrites its value in place, or appends it when absent. |
| Draft.Request.constructor | proxy.py:133-137 | The copy has `Host` set to `habrahabr.ru`, and the caller's headers are not touched. |
| Draft.Request.GetData | proxy.py:139-142 | The body is the next `Content-Length` bytes, as `read` returns them. A non-numeric length or one below -1 is a `ValueError`. |
| Draft.Request.GetChunkedData | proxy.py:144-157 | It uses the same decoder: skip one bare CRLF, stop at size 0, concatenate and count. |
| Draft.Request.MakeRequest | proxy.py:159-167 | The whole header set is sent, unchanged, then `Content-Length` is checked before `Transfer-Encoding`, and with neither there is no body. |
| Draft.SlicesShape | proxy.py:203-208 | The pieces concatenate to the payload; all but the last have length `cs`, and the last is non-empty and at most `cs` long (no 1.5 rule). |
| Draft.SlicesAtLeast | proxy.py:204-205 | There are at least N pieces. |
| Draft.ChunkFrames | proxy.py:203-209 | The encoding exists exactly when there is a payload with `L >= N >= 1`, and it ends with `0\r\n\r\n`. |
| Draft.SplitSlices | proxy.py:205-208 | The loop yields the frame of each `cs`-sized slice in order. |
| Draft.Response.GetChunks | proxy.py:203-209 | The result is the `ChunkFrames` encoding, or its failure. |
| Draft.ChunkRoundTrip | proxy.py:203-209 | Decoding the draft encoding gives back the payload, with one chunk per slice. |
| Draft.Response.constructor | proxy.py:184-188 | A response with `Transfer-Encoding` gets the empty text. |
| Draft.Response.UnpackData | proxy.py:215-217 | With `Transfer-Encoding` the text becomes `''`; the payload is untouched. |
| Draft.Response.PackData | proxy.py:211-213 | With `Transfer-Encoding` the payload becomes `b''`; the text is untouched. |
| Draft.Response.SetData | proxy.py:198-201 | Assigning text stores it and then packs. |
| Common.Reader.ReadLine | proxy/headers.py:29 | `readline()` returns the bytes up to and including the next line feed, or the rest, and advances past them. |
| Common.Reader.Read | proxy/request.py:21 | `read(n)` returns the next n bytes, or fewer at EOF, and advances past them. `read(-1)` returns the rest of the stream, and any smaller n is a `ValueError` that consumes nothing. |
| Common.Take | proxy/request.py:21 | What `read(n)` returns: a prefix of the stream of length `min(n, len)` for n >= 0, the whole stream for -1, and a `ValueError` exactly when n < -1. |
| Common.LineOf | proxy/headers.py:29 | What `readline()` returns: a prefix of the stream, non-empty unless at EOF, with no line feed before its last byte, and ending in one unless it is the whole rest. |
| Common.Writer.Write | proxy/handler.py:30 | `write` appends one block to the log. |
| PyStr.StripPadded | proxy/headers.py:12 | `strip()` removes exactly the surrounding whitespace of a stripped value. |
| PyStr.WordsCons | proxy/request.py:65 | `split()` takes the first whitespace-free word off the front. |
| PyStr.SplitLinesClean | proxy/modifier.py:49 | No line from `splitlines()` holds a line break. |
| PyStr.JoinSplitLines | proxy/modifier.py:49-51 | For text whose only breaks are line feeds and that does not end in one, joining its `splitlines()` with line feeds restores it. |
| PyStr.ReplaceRemovesAll | proxy/modifier.py:30 | `replace` leaves no occurrence of the pattern when the replacement cannot overlap with it. |
| PyStr.LastIndexOf | proxy/parser.py:26 | `rindex` finds the last occurrence, and fails exactly when there is none. |
| PyInt.ParseFormat | proxy/request.py:38 | `int(format(n, 'x'), 16) == n`, and the same in base 10. |
| PyInt.ParseFormatPadded | proxy/request.py:38 | The same holds with trailing whitespace such as CRLF. |
| OrderedMap.AssignLookup | proxy/request.py:16 | After `d[k] = v`, `k` maps to `v` and every other key keeps its value. |
| OrderedMap.RemoveLookup | proxy/headers.py:18 | After `pop(k)`, `k` is absent and every other key keeps its value. |
| OrderedMap.FromListKeys | proxy/headers.py:8-12 | Filling a dict keeps each key at its first insertion position. |
| OrderedMap.FromListLookup | proxy/headers.py:8-12 | Filling a dict leaves each key with its last value. |
| Settings.LinksDoNotOverlap | proxy/settings.py:16-30 | The local link cannot recreate the target link, which is what makes the redirect and link rewrites idempotent. |

## Left out

- Sockets, TLS and the `socketserver` listener (`get_rfile`, `proxy/server.py`, `runserver.py`) are left out. The client's connection and the upstream connection are `Reader`/`Writer` objects given to `Handle`.
- Handler.Handle: it requires the client and upstream connections to be distinct objects. In the source they are separate sockets.
- Logging (`logging.debug`/`logging.info`) is left out; it has no effect on the bytes exchanged.
- `gzip.compress`/`gzip.decompress` and UTF-8 encoding of the page are abstract functions in `Codec`. Decompression may fail (`CompressionError`); no round-trip law is assumed.
- UTF-8 for header text is modelled as one byte per character, which is exact for ASCII header text only.
- The standard library's HTML tokenizer, `getpos()` and `check_for_whole_start_tag` are left out. Their output is the `Tokenizer` parameter: the events for a document, each with its position and end index.
- Rewriter.ModifyData: the document is fed once as a whole, and `close()` is never called. This follows the source.
- Parser callbacks are recorded as calls and applied to the line list in the same order. This matches the source because the parser never reads the rewriter's state.
- Rewriter.IsWordChar stands for the Unicode `\w` class, and `\b` at run boundaries. It covers ASCII letters, digits, `_` and the Russian alphabet; other Unicode word characters are not modelled.
- The float arithmetic in `int(len / count)` and `* 1.5` is modelled as exact `L div N` and `2 * rem < 3 * cs`. Rounding for payloads beyond 2^53 bytes is not modelled.
- `_html_data = None` before `modify_data` is modelled as an empty line list.
- HtmlParser.DataPosAdvance: positions are computed on the delivered text. With `convert_charrefs` on, a character reference such as `&amp;` is delivered as one character while the tokenizer's cursor moves over its whole raw length, so for such text the reported end column is not the cursor. This follows the source.
- HtmlParser.DataPos: for a run ending in a line feed, `splitlines()[-1]` is the line before that feed, so the end column is not the tokenizer's cursor. This follows the source (`DataPosTrailingLf`).
- Draft: `Response.__iter__` yields the header bytes and then an iterator object rather than bytes, so it is left out.
- Draft: `ProxyHandler.handle` only builds the request and logs, so it is left out.
- The commented-out classes in `proxy.py` are left out.
- `settings.py`: the command-line port and `socket.getservbyport(443)` are constants. They give `habrahabr.ru`, `https://habrahabr.ru` and `http://localhost:9090`.
- Draft.Headers.ToBytes is a function that reads the header set; it is specified through `Draft.Serialize` and its lemmas rather than its own contract.
