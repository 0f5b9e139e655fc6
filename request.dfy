/** The request the proxy sends upstream and the reading of the upstream response body:
    a fixed length (`Content-Length`) or the chunked coding of section 7.1 of RFC 9112,
    without chunk extensions or trailer fields. */
module UpstreamRequest {
  import opened Common
  import opened PyStr
  import opened PyInt
  import opened OrderedMap
  import opened HeaderSet
  import opened Settings
  import opened ResponseEntity

  /** The line `get_chunk_size` parses and the stream after it. */
  datatype SizeText = SizeText(line: Bytes, rest: Bytes)

  /** Reads a line, and another when the first is a bare CRLF (the end of the chunk before). */
  function ReadSizeText(s: Bytes): (r: SizeText)
    ensures |r.line| + |r.rest| <= |s|
  {
    var first := LineOf(s);
    var after := s[|first|..];
    if first == CRLF then
      var line := LineOf(after);
      SizeText(line, after[|line|..])
    else SizeText(first, after)
  }

  /** `int(line.strip(), 16)`: `None` is the `ValueError` of a line that is not hexadecimal. */
  function HexSize(line: Bytes): (r: Option<int>)
    ensures r.Some? ==> line != []
  {
    ParseInt(Decode(line), 16)
  }

  /** The decoded body: the chunks put together, how many there were, and the stream after
      the last-chunk line. */
  datatype Decoded = Decoded(payload: Bytes, count: nat, rest: Bytes)

  /** The `get_chunked_data` loop: reads size lines and chunks until the first size zero;
      a line that is not hexadecimal is a `ValueError`. */
  function Chunks(s: Bytes): (r: Result<Decoded>)
    ensures r.Ok? ==> |r.value.rest| < |s|
    ensures r.Err? ==> r == Err(ValueError)
    decreases |s|, 1
  {
    var t := ReadSizeText(s);
    var size := HexSize(t.line);
    if size.None? then Err(ValueError) else ChunksAfter(size.value, t.rest)
  }

  /** The loop after a size line has been read. A size of -1 reads to the end of the
      stream and a smaller one is a `ValueError`, as `read` does; either way the next size
      line is then missing or unparsable, so the loop ends in a `ValueError`. */
  function ChunksAfter(size: int, rest: Bytes): (r: Result<Decoded>)
    ensures r.Ok? ==> |r.value.rest| <= |rest|
    ensures r.Err? ==> r == Err(ValueError)
    decreases |rest|, 2
  {
    if size == 0 then Ok(Decoded([], 0, rest))
    else
      var chunk :- Take(rest, size);
      var d :- Chunks(rest[|chunk|..]);
      Ok(Decoded(chunk + d.payload, d.count + 1, d.rest))
  }

  /** `get_chunk_size(rfile)` */
  method ReadChunkSize(rfile: Reader) returns (size: Option<int>)
    modifies rfile
    ensures var t := ReadSizeText(old(rfile.rest));
            size == HexSize(t.line) && rfile.rest == t.rest
    ensures size.None? ==> Chunks(old(rfile.rest)) == Err(ValueError)
    ensures size.Some? ==> Chunks(old(rfile.rest)) == ChunksAfter(size.value, rfile.rest)
  {
    var line := rfile.ReadLine();
    if line == CRLF {
      line := rfile.ReadLine();
    }
    size := ParseInt(Decode(line), 16);
  }

  /** `rfile.read(chunk_size)` inside the loop. */
  method ReadChunk(rfile: Reader, size: int) returns (chunk: Result<Bytes>)
    requires size != 0
    modifies rfile
    ensures chunk == Take(old(rfile.rest), size)
    ensures chunk.Ok? ==> rfile.rest == old(rfile.rest)[|chunk.value|..]
    ensures chunk.Ok? ==> Follows(ChunksAfter(size, old(rfile.rest)), chunk.value, Chunks(rfile.rest))
    ensures chunk.Err? ==> ChunksAfter(size, old(rfile.rest)) == Err(ValueError)
  {
    chunk := rfile.Read(size);
  }

  /** `r` is `chunk` followed by what `tail` decodes. */
  predicate Follows(r: Result<Decoded>, chunk: Bytes, tail: Result<Decoded>)
  {
    && (r.Ok? <==> tail.Ok?)
    && (r.Ok? ==> && r.value.payload == chunk + tail.value.payload
                  && r.value.count == tail.value.count + 1
                  && r.value.rest == tail.value.rest)
  }

  /** `whole` is the chunks read so far followed by what `tail` decodes. */
  predicate Continues(whole: Result<Decoded>, chunks: seq<Bytes>, tail: Result<Decoded>)
  {
    && (whole.Ok? <==> tail.Ok?)
    && (whole.Ok? ==> && whole.value.payload == Concat(chunks) + tail.value.payload
                      && whole.value.count == |chunks| + tail.value.count
                      && whole.value.rest == tail.value.rest)
  }

  lemma ContinuesTrans(whole: Result<Decoded>, chunks: seq<Bytes>, chunk: Bytes,
                       mid: Result<Decoded>, tail: Result<Decoded>)
    requires Continues(whole, chunks, mid) && Follows(mid, chunk, tail)
    ensures Continues(whole, chunks + [chunk], tail)
  {
    ConcatAppend(chunks, [chunk]);
    assert Concat([chunk]) == chunk;
    if whole.Ok? {
      assert Concat(chunks) + (chunk + tail.value.payload)
          == Concat(chunks + [chunk]) + tail.value.payload;
    }
  }

  lemma ContinuesStart(whole: Result<Decoded>)
    ensures Continues(whole, [], whole)
  {
    if whole.Ok? {
      assert Concat([]) + whole.value.payload == whole.value.payload;
    }
  }

  lemma ContinuesDone(whole: Result<Decoded>, chunks: seq<Bytes>, rest: Bytes)
    requires Continues(whole, chunks, ChunksAfter(0, rest))
    ensures whole == Ok(Decoded(Concat(chunks), |chunks|, rest))
  {
    assert Concat(chunks) + [] == Concat(chunks);
  }

  /** The loop of `get_chunked_data(response_headers, rfile)`: the payload and the number of
      chunks handed to the response, or the `ValueError` of a bad size line. */
  method ReadChunked(rfile: Reader) returns (r: Result<Decoded>)
    modifies rfile
    ensures r == Chunks(old(rfile.rest))
    ensures r.Ok? ==> rfile.rest == r.value.rest
  {
    var chunks: seq<Bytes> := [];
    ghost var whole := Chunks(rfile.rest);
    var size := ReadChunkSize(rfile);
    if size.None? {
      return Err(ValueError);
    }
    ContinuesStart(whole);
    while size.value != 0
      invariant size.Some? && Continues(whole, chunks, ChunksAfter(size.value, rfile.rest))
      decreases |rfile.rest|
    {
      ghost var before := rfile.rest;
      var chunk := ReadChunk(rfile, size.value);
      if chunk.Err? {
        return Err(ValueError);
      }
      ContinuesTrans(whole, chunks, chunk.value, ChunksAfter(size.value, before), Chunks(rfile.rest));
      chunks := chunks + [chunk.value];
      size := ReadChunkSize(rfile);
      if size.None? {
        return Err(ValueError);
      }
    }
    ContinuesDone(whole, chunks, rfile.rest);
    r := Ok(Decoded(Concat(chunks), |chunks|, rfile.rest));
  }

  /** The size line the encoder writes before a chunk of `k` bytes. */
  function SizeLine(k: nat): Bytes
  {
    Encode(Format(k, 16)) + CRLF
  }

  /** A size line is one line: it ends in its only LF. */
  lemma SizeLineShape(k: nat)
    ensures var line := SizeLine(k);
            && line != CRLF && line[|line| - 1] == LF
            && (forall i :: 0 <= i < |line| - 1 ==> line[i] != LF)
  {
    var h := Format(k, 16);
    var line := SizeLine(k);
    assert |Encode(h)| == |h|;
    forall i | 0 <= i < |line| - 1 ensures line[i] != LF {
      if i < |h| { assert IsDigit(h[i], 16) && line[i] == h[i] as int; }
    }
  }

  /** A size line parses back to the size. */
  lemma SizeLineHex(k: nat)
    ensures HexSize(SizeLine(k)) == Some(k)
  {
    var h := Format(k, 16);
    var t := h + "\r\n";
    assert IsLatin1(t) by {
      forall i | 0 <= i < |t| ensures t[i] as int < 256 {
        if i < |h| { assert IsDigit(h[i], 16) && t[i] == h[i]; }
      }
    }
    EncodeAppend(h, "\r\n");
    assert Encode("\r\n") == CRLF;
    DecodeEncode(t);
    ParseFormatPadded(k, 16, "\r\n");
  }

  /** `get_chunk_size` reads a size line whole, also after the CRLF that ends the chunk
      before it. */
  lemma ReadSizeLine(lead: Bytes, line: Bytes, rest: Bytes)
    requires lead == [] || lead == CRLF
    requires line != CRLF && line != [] && line[|line| - 1] == LF
    requires forall i :: 0 <= i < |line| - 1 ==> line[i] != LF
    ensures ReadSizeText(lead + line + rest) == SizeText(line, rest)
  {
    LineOfPrefix(line, rest);
    assert (line + rest)[|line|..] == rest;
    if lead == [] {
      assert lead + line + rest == line + rest;
    } else {
      LineOfPrefix(lead, line + rest);
      assert lead + line + rest == lead + (line + rest);
      assert (lead + (line + rest))[2..] == line + rest;
    }
  }

  /** A size line followed by the `k` bytes it announces decodes to those bytes followed by
      whatever the stream after them decodes to. */
  lemma ChunksOfFrame(s: Bytes, line: Bytes, p: Bytes, tail: Bytes)
    requires p != [] && HexSize(line) == Some(|p|)
    requires ReadSizeText(s) == SizeText(line, p + tail)
    ensures Follows(Chunks(s), p, Chunks(tail))
  {
    assert Take(p + tail, |p|) == Ok(p);
    assert (p + tail)[|p|..] == tail;
  }

  /** A size line of zero ends the body; what follows it is left unread. */
  lemma ChunksOfLast(s: Bytes, line: Bytes, rest: Bytes)
    requires HexSize(line) == Some(0)
    requires ReadSizeText(s) == SizeText(line, rest)
    ensures Chunks(s) == Ok(Decoded([], 0, rest))
  {
  }

  /** The frame of a non-empty piece decodes to the piece followed by whatever the stream
      after it decodes to, starting with the CRLF that ends the frame. */
  lemma FrameStep(s: Bytes, lead: Bytes, p: Bytes, tail: Bytes)
    requires lead == [] || lead == CRLF
    requires p != [] && s == lead + Frame(p) + tail
    ensures Follows(Chunks(s), p, Chunks(CRLF + tail))
  {
    var line := SizeLine(|p|);
    assert ReadSizeText(s) == SizeText(line, p + (CRLF + tail)) by {
      FrameSplit(lead, p, tail);
      SizeLineShape(|p|);
      ReadSizeLine(lead, line, p + (CRLF + tail));
    }
    assert HexSize(line) == Some(|p|) by {
      SizeLineHex(|p|);
    }
    ChunksOfFrame(s, line, p, CRLF + tail);
  }

  lemma FrameSplit(lead: Bytes, p: Bytes, tail: Bytes)
    ensures lead + Frame(p) + tail == lead + SizeLine(|p|) + (p + (CRLF + tail))
  {
  }

  /** The last chunk ends the body; the CRLF after it is left unread. */
  lemma LastFrameStep(s: Bytes, lead: Bytes, rest: Bytes)
    requires lead == [] || lead == CRLF
    requires s == lead + Frame([]) + rest
    ensures Chunks(s) == Ok(Decoded([], 0, CRLF + rest))
  {
    LastFrameRead(lead, rest);
    SizeLineHex(0);
    ChunksOfLast(s, SizeLine(0), CRLF + rest);
  }

  lemma LastFrameRead(lead: Bytes, rest: Bytes)
    requires lead == [] || lead == CRLF
    ensures ReadSizeText(lead + Frame([]) + rest) == SizeText(SizeLine(0), CRLF + rest)
  {
    assert lead + Frame([]) + rest == lead + SizeLine(0) + (CRLF + rest);
    SizeLineShape(0);
    ReadSizeLine(lead, SizeLine(0), CRLF + rest);
  }

  /** Decoding the frames of non-empty pieces, each but the first preceded by the CRLF that
      ends the frame before it, followed by the last chunk, gives back the pieces put
      together and their number; the CRLF after the last-chunk line is left unread. */
  lemma DecodeFrames(lead: Bytes, pieces: seq<Bytes>, rest: Bytes)
    requires lead == [] || lead == CRLF
    requires forall i :: 0 <= i < |pieces| ==> pieces[i] != []
    ensures Chunks(lead + Concat(Frames(pieces)) + Frame([]) + rest)
            == Ok(Decoded(Concat(pieces), |pieces|, CRLF + rest))
  {
    DecodeFramesAt(lead + Concat(Frames(pieces)) + Frame([]) + rest, lead, pieces, rest);
  }

  lemma {:induction false} DecodeFramesAt(s: Bytes, lead: Bytes, pieces: seq<Bytes>, rest: Bytes)
    requires lead == [] || lead == CRLF
    requires forall i :: 0 <= i < |pieces| ==> pieces[i] != []
    requires s == lead + Concat(Frames(pieces)) + Frame([]) + rest
    ensures Chunks(s) == Ok(Decoded(Concat(pieces), |pieces|, CRLF + rest))
    decreases |pieces|
  {
    if pieces == [] {
      assert s == lead + Frame([]) + rest;
      LastFrameStep(s, lead, rest);
    } else {
      var p := pieces[0];
      var more := Concat(Frames(pieces[1..])) + Frame([]) + rest;
      FramesSplit(lead, pieces, rest);
      FrameStep(s, lead, p, more);
      assert Chunks(CRLF + more) == Ok(Decoded(Concat(pieces[1..]), |pieces| - 1, CRLF + rest)) by {
        Regroup(CRLF, Concat(Frames(pieces[1..])), Frame([]), rest);
        assert forall i :: 0 <= i < |pieces[1..]| ==> pieces[1..][i] == pieces[i + 1];
        DecodeFramesAt(CRLF + more, CRLF, pieces[1..], rest);
      }
      assert Concat(pieces) == p + Concat(pieces[1..]);
      FollowsValue(Chunks(s), p, Chunks(CRLF + more));
    }
  }

  /** What `Follows` says once the tail is known to decode. */
  lemma FollowsValue(r: Result<Decoded>, chunk: Bytes, tail: Result<Decoded>)
    requires tail.Ok? && Follows(r, chunk, tail)
    ensures r == Ok(Decoded(chunk + tail.value.payload, tail.value.count + 1, tail.value.rest))
  {
  }

  lemma FramesSplit(lead: Bytes, pieces: seq<Bytes>, rest: Bytes)
    requires pieces != []
    ensures lead + Concat(Frames(pieces)) + Frame([]) + rest
            == lead + Frame(pieces[0]) + (Concat(Frames(pieces[1..])) + Frame([]) + rest)
  {
    var f := Frame(pieces[0]);
    var r := Concat(Frames(pieces[1..]));
    assert Concat(Frames(pieces)) == f + r;
    RegroupFirst(lead, f, r, Frame([]), rest);
  }

  lemma RegroupFirst(a: Bytes, f: Bytes, r: Bytes, l: Bytes, z: Bytes)
    ensures a + (f + r) + l + z == a + f + (r + l + z)
  {
  }

  lemma Regroup(a: Bytes, b: Bytes, c: Bytes, d: Bytes)
    ensures a + (b + c + d) == a + b + c + d
  {
  }

  /** `4\r\nWiki\r\n0\r\n\r\n` decodes to `Wiki` in one chunk; the final CRLF stays unread. */
  lemma WikiExample(s: Bytes)
    requires s == [52, 13, 10, 87, 105, 107, 105, 13, 10, 48, 13, 10, 13, 10]
    ensures Chunks(s) == Ok(Decoded([87, 105, 107, 105], 1, [13, 10]))
  {
    var p: Bytes := [87, 105, 107, 105];
    WikiFrames(s, p);
    DecodeFrames([], [p], []);
    assert Concat([p]) == p;
    assert CRLF + [] == [13, 10];
  }

  lemma WikiFrames(s: Bytes, p: Bytes)
    requires s == [52, 13, 10, 87, 105, 107, 105, 13, 10, 48, 13, 10, 13, 10]
    requires p == [87, 105, 107, 105]
    ensures s == [] + Concat(Frames([p])) + Frame([]) + []
  {
    assert Format(4, 16) == "4";
    assert Frame(p) == [52, 13, 10] + p + [13, 10];
    assert Concat(Frames([p])) == Frame(p);
    LastFrame();
  }

  /** Round trip: the frames `get_chunks` produces decode back to the payload. */
  lemma ChunkRoundTrip(p: Bytes, n: nat, rest: Bytes)
    requires n > 0 && |p| >= n
    ensures Chunks(Concat(ChunkFrames(p, n).value) + rest).Ok?
    ensures Chunks(Concat(ChunkFrames(p, n).value) + rest).value.payload == p
    ensures Chunks(Concat(ChunkFrames(p, n).value) + rest).value.count >= n
  {
    var cs := |p| / n;
    var ps := Pieces(p, cs);
    PiecesShape(p, cs);
    PiecesConcat(p, cs);
    PiecesCount(p, n);
    forall i | 0 <= i < |ps| ensures ps[i] != [] {
      if i < |ps| - 1 { assert |ps[i]| == cs; }
    }
    ConcatAppend(Frames(ps), [Frame([])]);
    assert Concat([Frame([])]) == Frame([]);
    assert Concat(ChunkFrames(p, n).value) + rest == [] + Concat(Frames(ps)) + Frame([]) + rest;
    DecodeFrames([], ps, rest);
  }

  /** The second word of `first second third`, as `path` and `status` read it. */
  lemma PathOfLine(items: seq<Entry<string>>, method_: string, target: string, version: string)
    requires IsWord(method_) && IsWord(target)
    requires Lookup(items, General) == Some(method_ + " " + target + " " + version)
    ensures SecondWord(items) == Ok(target)
  {
    SecondWordOfLine(method_, target, version);
  }

  /** How the body is read after the response headers: `Content-Length` first (a
      non-decimal length is a `ValueError`, -1 reads to end of stream and a smaller length
      is the `ValueError` of `read`), then any `Transfer-Encoding` as chunked, otherwise
      no body. */
  datatype Body = Body(packed: Option<Bytes>, count: nat, rest: Bytes)

  function ReadBody(items: seq<Entry<string>>, s: Bytes): (r: Result<Body>)
    ensures r.Ok? && Lookup(items, "Content-Length").Some? ==> r.value.count == 0
    ensures r.Ok? && r.value.packed.None? ==> r.value.rest == s
  {
    match Lookup(items, "Content-Length")
    case Some(v) =>
      (match ParseInt(v, 10)
       case None => Err(ValueError)
       case Some(n) => var data :- Take(s, n); Ok(Body(Some(data), 0, s[|data|..])))
    case None =>
      if Lookup(items, "Transfer-Encoding").Some? then
        var d :- Chunks(s);
        Ok(Body(Some(d.payload), d.count, d.rest))
      else Ok(Body(None, 0, s))
  }

  /** The body of a response with `Content-Length: n` is exactly the next `n` bytes. */
  lemma ContentLengthBody(items: seq<Entry<string>>, data: Bytes, rest: Bytes)
    requires Lookup(items, "Content-Length") == Some(Format(|data|, 10))
    ensures ReadBody(items, data + rest) == Ok(Body(Some(data), 0, rest))
  {
    ParseFormat(|data|, 10);
    assert (data + rest)[..|data|] == data;
    assert (data + rest)[|data|..] == rest;
  }

  /** `Content-Length: -n` for `n >= 2` makes `read(-n)` raise: the body is a `ValueError`. */
  lemma NegativeLengthRaises(items: seq<Entry<string>>, n: nat, s: Bytes)
    requires n >= 2 && Lookup(items, "Content-Length") == Some("-" + Format(n, 10))
    ensures ReadBody(items, s) == Err(ValueError)
  {
    ParseNegatedFormat(n, 10);
  }

  /** `Content-Length: -1` reads the rest of the stream as the body. */
  lemma MinusOneLengthReadsAll(items: seq<Entry<string>>, s: Bytes)
    requires Lookup(items, "Content-Length") == Some("-1")
    ensures ReadBody(items, s) == Ok(Body(Some(s), 0, []))
  {
    assert Format(1, 10) == [DigitChar(1)] == "1";
    ParseNegatedFormat(1, 10);
    assert ParseInt("-1", 10) == Some(-1);
    assert Take(s, -1) == Ok(s);
    assert s[|s|..] == [];
  }

  /** The response `make_request` builds from what the upstream server sends back: the
      header block, the body as `ReadBody` reads it, then the response object as `Built`
      says. */
  function Fetched(s: Bytes, codec: Codec): (r: Result<Reply>)
    ensures var items := FromList(Fields(ReadBlock(s).lines));
            && (ReadBody(items, ReadBlock(s).rest).Err? ==> r == Err(ValueError))
            && (r.Ok? ==> ReadBody(items, ReadBlock(s).rest).Ok?
                          && r.value.packed == ReadBody(items, ReadBlock(s).rest).value.packed
                          && r.value.count == ReadBody(items, ReadBlock(s).rest).value.count
                          && Redirected(items) == Ok(r.value.items))
    ensures r.Ok? ==> (r.value.data.Some? <==> GzippedHtml(r.value.items, r.value.packed))
  {
    var block := ReadBlock(s);
    var items := FromList(Fields(block.lines));
    var b :- ReadBody(items, block.rest);
    Built(items, b.packed, b.count, codec)
  }

  class Request {
    const headers: Headers

    /** `Request(request_headers)`: a copy of the client's headers with `Host` set to the
        upstream host; the client's dictionary is left as it was. */
    constructor (requestHeaders: Headers)
      requires requestHeaders.Valid()
      ensures fresh(headers) && headers.Valid()
      ensures headers.items == Assign(requestHeaders.items, "Host", TargetHost)
    {
      var h := new Headers.Copy(requestHeaders);
      h.Set("Host", TargetHost);
      headers := h;
    }

    /** `path`: the second word of the request line. */
    function Path(): (r: Result<string>)
      reads this, headers
      ensures Lookup(headers.items, General).None? ==> r == Err(KeyError(General))
      ensures r.Ok? ==> IsWord(r.value)
    {
      SecondWord(headers.items)
    }

    /** `get_data(response_headers, rfile)` */
    static method GetData(responseHeaders: Headers, rfile: Reader, codec: Codec)
      returns (r: Result<Response>)
      requires responseHeaders.Valid() && Lookup(responseHeaders.items, "Content-Length").Some?
      modifies responseHeaders, rfile
      ensures var b := ReadBody(old(responseHeaders.items), old(rfile.rest));
              && (b.Err? ==> r == Err(ValueError))
              && (r.Ok? ==> b.Ok? && r.value.packed == b.value.packed
                            && r.value.chunksCount == b.value.count && rfile.rest == b.value.rest
                            && r.value.headers == responseHeaders && r.value.Valid()
                            && r.value.codec == codec
                            && Redirected(old(responseHeaders.items)) == Ok(responseHeaders.items))
              && (b.Ok? ==> Delivers(r, Built(old(responseHeaders.items), b.value.packed, b.value.count, codec)))
    {
      var length := ParseInt(Lookup(responseHeaders.items, "Content-Length").value, 10);
      if length.None? {
        return Err(ValueError);
      }
      var data := rfile.Read(length.value);
      if data.Err? {
        return Err(data.error);
      }
      r := Response.Create(responseHeaders, Some(data.value), 0, codec);
    }

    /** `get_chunked_data(response_headers, rfile)` */
    static method GetChunkedData(responseHeaders: Headers, rfile: Reader, codec: Codec)
      returns (r: Result<Response>)
      requires responseHeaders.Valid()
      requires Lookup(responseHeaders.items, "Content-Length").None?
      requires Lookup(responseHeaders.items, "Transfer-Encoding").Some?
      modifies responseHeaders, rfile
      ensures var b := ReadBody(old(responseHeaders.items), old(rfile.rest));
              && (b.Err? ==> r == Err(ValueError))
              && (r.Ok? ==> b.Ok? && r.value.packed == b.value.packed
                            && r.value.chunksCount == b.value.count && rfile.rest == b.value.rest
                            && r.value.headers == responseHeaders && r.value.Valid()
                            && r.value.codec == codec
                            && Redirected(old(responseHeaders.items)) == Ok(responseHeaders.items))
              && (b.Ok? ==> Delivers(r, Built(old(responseHeaders.items), b.value.packed, b.value.count, codec)))
    {
      var d := ReadChunked(rfile);
      if d.Err? {
        return Err(ValueError);
      }
      r := Response.Create(responseHeaders, Some(d.value.payload), d.value.count, codec);
    }

    /** `make_request()` over an open upstream connection: sends the serialized headers
        (which removes the request line from them), reads the response headers and then
        the body as `ReadBody` says. */
    method MakeRequest(upstream: Reader, upOut: Writer, codec: Codec) returns (r: Result<Response>)
      requires headers.Valid()
      modifies headers, upstream, upOut
      ensures Lookup(old(headers.items), General).None? ==>
                r == Err(KeyError(General)) && upOut.log == old(upOut.log)
                && upstream.rest == old(upstream.rest)
      ensures Lookup(old(headers.items), General).Some? ==>
                upOut.log == old(upOut.log)
                  + [Encode(Serialize(Lookup(old(headers.items), General).value,
                                      Remove(old(headers.items), General)))]
      ensures var block := ReadBlock(old(upstream.rest));
              var items := FromList(Fields(block.lines));
              && (Lookup(old(headers.items), General).Some? && ReadBody(items, block.rest).Err? ==> r.Err?)
              && (r.Ok? ==> && fresh(r.value) && fresh(r.value.headers) && r.value.Valid()
                            && r.value.codec == codec
                            && ReadBody(items, block.rest)
                               == Ok(Body(r.value.packed, r.value.chunksCount, upstream.rest))
                            && Redirected(items) == Ok(r.value.headers.items))
      ensures Lookup(old(headers.items), General).Some? ==> Delivers(r, Fetched(old(upstream.rest), codec))
      ensures headers.items == Remove(old(headers.items), General)
    {
      var sent := headers.ToBytes();
      if sent.Err? {
        return Err(sent.error);
      }
      upOut.Write(sent.value);
      var responseHeaders := Headers.FromReader(upstream);
      if Lookup(responseHeaders.items, "Content-Length").Some? {
        r := GetData(responseHeaders, upstream, codec);
      } else if Lookup(responseHeaders.items, "Transfer-Encoding").Some? {
        r := GetChunkedData(responseHeaders, upstream, codec);
      } else {
        r := Response.Create(responseHeaders, None, 0, codec);
      }
    }
  }
}
