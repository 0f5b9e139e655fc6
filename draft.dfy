/** The single-file first version of the proxy, kept beside the package. Its header set
    keeps the start line as received and where it was inserted, and serializes without
    changing the dictionary; its chunk encoder cuts pieces of the nominal size with a
    shorter last one; its body "unpacking" only blanks the text of a response that has a
    transfer coding. */
module Draft {
  import opened Common
  import opened PyStr
  import opened PyInt
  import opened OrderedMap
  import HeaderSet
  import ResponseEntity
  import UpstreamRequest

  const General: string := HeaderSet.General

  /** The draft hard-codes the upstream host. */
  const TargetHost: string := "habrahabr.ru"

  /** A received line: one with a colon is split as the package's header set splits it;
      any other line is the start line, kept as received, line break included. */
  function Field(line: Bytes): Entry<string>
  {
    var text := Decode(line);
    if IndexOf(text, ':') < |text| then HeaderSet.Field(line) else Entry(General, text)
  }

  /** The draft reads a header block as the package does, line for line, except that a
      line without a colon is kept unstripped as the start line. */
  function Fields(lines: seq<Bytes>): (es: seq<Entry<string>>)
    ensures |es| == |lines| && forall i :: 0 <= i < |lines| ==> es[i] == Field(lines[i])
    ensures forall i :: 0 <= i < |lines| && ':' in Decode(lines[i]) ==>
              es[i] == HeaderSet.Fields(lines)[i]
    ensures forall i :: 0 <= i < |lines| && ':' !in Decode(lines[i]) ==>
              && es[i] == Entry(General, Decode(lines[i]))
              && HeaderSet.Fields(lines)[i] == Entry(General, Strip(Decode(lines[i])))
  {
    var es := seq(|lines|, i requires 0 <= i < |lines| => Field(lines[i]));
    assert forall i :: 0 <= i < |lines| ==>
             && (':' in Decode(lines[i]) ==> Field(lines[i]) == HeaderSet.Field(lines[i]))
             && (':' !in Decode(lines[i]) ==> HeaderSet.Field(lines[i]) == Entry(General, Strip(Decode(lines[i]))))
    by {
      forall i | 0 <= i < |lines| { StartLineKept(lines[i]); }
    }
    es
  }

  /** A line without a colon becomes the start line unchanged, where the package strips it;
      a line with one is read exactly as the package reads it. */
  lemma StartLineKept(line: Bytes)
    ensures ':' !in Decode(line) ==>
              && Field(line) == Entry(General, Decode(line))
              && HeaderSet.Field(line) == Entry(General, Strip(Decode(line)))
    ensures ':' in Decode(line) ==> Field(line) == HeaderSet.Field(line)
  {
    var text := Decode(line);
    if ':' in text {
      var k :| 0 <= k < |text| && text[k] == ':';
      assert IndexOf(text, ':') <= k;
    }
  }

  /** One serialized line: the start line as stored, any other entry as `name: value`. */
  function Line(e: Entry<string>): string
  {
    if e.key == General then e.value else HeaderSet.FieldLine(e)
  }

  function Lines(items: seq<Entry<string>>): (ls: seq<string>)
    ensures |ls| == |items| && forall i :: 0 <= i < |items| ==> ls[i] == Line(items[i])
  {
    seq(|items|, i requires 0 <= i < |items| => Line(items[i]))
  }

  /** `bytes(headers)` before encoding: the lines of the entries in insertion order and a
      final CRLF element, joined with CRLF. */
  function Serialize(items: seq<Entry<string>>): (s: string)
    ensures s == Block(items) + "\r\n"
  {
    JoinLines(items);
    Join(Lines(items) + ["\r\n"], "\r\n")
  }

  /** Every entry's line followed by CRLF, in insertion order. */
  function Block(items: seq<Entry<string>>): string
  {
    if items == [] then [] else Line(items[0]) + "\r\n" + Block(items[1..])
  }

  /** The serialization is each entry on a line of its own, the start line included
      wherever it was inserted, followed by an empty line; so a non-empty set ends with
      `\r\n\r\n` and an empty one is a lone CRLF. */
  lemma {:induction false} SerializeBlock(items: seq<Entry<string>>)
    ensures Serialize(items) == Block(items) + "\r\n"
    ensures items != [] ==> |Serialize(items)| >= 4 &&
                            Serialize(items)[|Serialize(items)| - 4..] == "\r\n\r\n"
    ensures items == [] ==> Serialize(items) == "\r\n"
  {
    JoinLines(items);
    if items != [] {
      BlockEnds(items);
      var b := Block(items);
      assert (b + "\r\n")[|b| + 2 - 4..] == b[|b| - 2..] + "\r\n";
    }
  }

  lemma {:induction false} JoinLines(items: seq<Entry<string>>)
    ensures Join(Lines(items) + ["\r\n"], "\r\n") == Block(items) + "\r\n"
  {
    if items == [] {
      assert Lines(items) + ["\r\n"] == ["\r\n"];
    } else {
      var parts := Lines(items) + ["\r\n"];
      assert parts[1..] == Lines(items[1..]) + ["\r\n"];
      JoinLines(items[1..]);
    }
  }

  lemma {:induction false} BlockEnds(items: seq<Entry<string>>)
    requires items != []
    ensures |Block(items)| >= 2 && Block(items)[|Block(items)| - 2..] == "\r\n"
  {
    var head := Line(items[0]) + "\r\n";
    var rest := Block(items[1..]);
    if items[1..] == [] {
      assert Block(items) == head + rest;
    } else {
      BlockEnds(items[1..]);
      assert (head + rest)[|head + rest| - 2..] == rest[|rest| - 2..];
    }
  }

  /** A start line read after a field is written after it, with its own line break, so an
      empty line follows it at once. */
  lemma InsertionOrderExample(items: seq<Entry<string>>)
    requires items == [Entry("Host", "a"), Entry(General, "GET / HTTP/1.1\r\n")]
    ensures Serialize(items) == "Host: a\r\nGET / HTTP/1.1\r\n\r\n\r\n"
  {
    var host, start, crlf := "Host: a", "GET / HTTP/1.1\r\n", "\r\n";
    assert Block(items) == host + crlf + (start + crlf) by {
      BlockPair(items[0], items[1]);
      assert Line(items[0]) == host;
      assert Line(items[1]) == start;
    }
    SerializeBlock(items);
  }

  lemma BlockPair(a: Entry<string>, b: Entry<string>)
    ensures Block([a, b]) == Line(a) + "\r\n" + (Line(b) + "\r\n")
  {
    assert [a, b][1..] == [b];
    assert [b][1..] == [];
    assert Block([b]) == Line(b) + "\r\n" + Block([]);
  }

  /** The draft's `Headers` dictionary. */
  class Headers {
    var items: seq<Entry<string>>

    predicate Valid()
      reads this
    {
      Distinct(items)
    }

    /** `Headers(headers_list)`: the fields of the lines assigned in order. */
    constructor (lines: seq<Bytes>)
      ensures items == FromList(Fields(lines)) && Valid()
    {
      var m: seq<Entry<string>> := [];
      var i := 0;
      while i < |lines|
        invariant 0 <= i <= |lines|
        invariant m == AssignAll([], Fields(lines[..i])) && Distinct(m)
      {
        var f := Field(lines[i]);
        assert Fields(lines[..i + 1])[..i] == Fields(lines[..i]);
        AssignDistinct(m, f.key, f.value);
        m := Assign(m, f.key, f.value);
        i := i + 1;
      }
      assert lines[..i] == lines;
      items := m;
    }

    /** `copy(headers)` */
    constructor Copy(other: Headers)
      requires other.Valid()
      ensures items == other.items && Valid()
    {
      items := other.items;
    }

    /** `headers[key] = value` */
    method Set(key: string, value: string)
      requires Valid()
      modifies this
      ensures items == Assign(old(items), key, value) && Valid()
    {
      AssignDistinct(items, key, value);
      items := Assign(items, key, value);
    }

    /** `bytes(headers)`: reads the dictionary and leaves it as it was. */
    function ToBytes(): Bytes
      reads this
    {
      Encode(Serialize(items))
    }

    /** `Headers.from_rfile(rfile)`: reads lines until end of stream or an empty line. */
    static method FromReader(rfile: Reader) returns (h: Headers)
      modifies rfile
      ensures fresh(h) && h.Valid()
      ensures h.items == FromList(Fields(HeaderSet.ReadBlock(old(rfile.rest)).lines))
      ensures rfile.rest == HeaderSet.ReadBlock(old(rfile.rest)).rest
    {
      var lines: seq<Bytes> := [];
      while true
        invariant HeaderSet.ReadBlock(old(rfile.rest)) ==
                  HeaderSet.Block(lines + HeaderSet.ReadBlock(rfile.rest).lines,
                                  HeaderSet.ReadBlock(rfile.rest).rest)
        decreases |rfile.rest|
      {
        ghost var before := rfile.rest;
        var received := rfile.ReadLine();
        if received == [] || received == CRLF {
          break;
        }
        assert HeaderSet.ReadBlock(before).lines == [received] + HeaderSet.ReadBlock(rfile.rest).lines;
        lines := lines + [received];
      }
      assert HeaderSet.ReadBlock(old(rfile.rest)).lines == lines;
      h := new Headers(lines);
    }
  }

  /** Whether the draft's pack and unpack act: a `Transfer-Encoding` header with a non-empty
      value (a true value in Python). */
  predicate Blanks(items: seq<Entry<string>>)
  {
    Lookup(items, "Transfer-Encoding").Some? && Lookup(items, "Transfer-Encoding").value != []
  }

  /** The pieces `get_chunks` frames: `packed_data[i:i + cs]` for every `i` in
      `range(0, len, cs)`. */
  function Slices(p: Bytes, cs: nat): seq<Bytes>
    requires cs > 0
    decreases |p|
  {
    if p == [] then []
    else if |p| <= cs then [p]
    else [p[..cs]] + Slices(p[cs..], cs)
  }

  /** The pieces put back together are the payload; every piece but the last has the
      nominal size and the last is non-empty and no longer, so their number is `len / cs`
      rounded up. */
  lemma {:induction false} SlicesShape(p: Bytes, cs: nat)
    requires cs > 0
    ensures var ps := Slices(p, cs);
            && Concat(ps) == p
            && (p != [] <==> ps != [])
            && (forall i :: 0 <= i < |ps| - 1 ==> |ps[i]| == cs)
            && (ps != [] ==> 0 < |ps[|ps| - 1]| <= cs)
            && (ps != [] ==> |p| == (|ps| - 1) * cs + |ps[|ps| - 1]|)
    decreases |p|
  {
    var ps := Slices(p, cs);
    if p == [] {
    } else if |p| <= cs {
      assert Concat(ps) == p + Concat([]);
    } else {
      var tail := Slices(p[cs..], cs);
      SlicesShape(p[cs..], cs);
      assert ps == [p[..cs]] + tail;
      assert Concat(ps) == p[..cs] + Concat(tail);
      assert p[..cs] + p[cs..] == p;
      assert forall i :: 1 <= i < |ps| ==> ps[i] == tail[i - 1];
      ResponseEntity.StepMul(|ps| - 1, cs);
    }
  }

  /** With `cs = len / n` there are at least `n` pieces. */
  lemma SlicesAtLeast(p: Bytes, n: nat)
    requires n > 0 && |p| / n > 0
    ensures |Slices(p, |p| / n)| >= n
  {
    var cs := |p| / n;
    var ps := Slices(p, cs);
    SlicesShape(p, cs);
    ResponseEntity.DivParts(|p|, n);
    ResponseEntity.AtLeastArith(|p|, n, cs, |ps|, |ps[|ps| - 1]|);
  }

  /** What `get_chunks` produces: a `TypeError` without a payload, a `ZeroDivisionError`
      for no chunks, a `ValueError` (a zero `range` step) when the payload is shorter than
      the chunk count, else the frames of the pieces and the last chunk. */
  function ChunkFrames(packed: Option<Bytes>, n: nat): (r: Result<seq<Bytes>>)
    ensures r.Ok? <==> packed.Some? && n > 0 && |packed.value| >= n
    ensures r.Ok? ==> |r.value| > 0 && r.value[|r.value| - 1] == ResponseEntity.Frame([])
  {
    if packed.None? then Err(TypeError)
    else if n == 0 then Err(ZeroDivisionError)
    else
      ResponseEntity.DivParts(|packed.value|, n);
      if |packed.value| / n == 0 then Err(ValueError)
      else Ok(ResponseEntity.Frames(Slices(packed.value, |packed.value| / n)) + [ResponseEntity.Frame([])])
  }

  /** Round trip: the frames the draft produces decode back to the payload, one chunk per
      piece. */
  lemma ChunkRoundTrip(p: Bytes, n: nat, rest: Bytes)
    requires n > 0 && |p| >= n
    ensures UpstreamRequest.Chunks(Concat(ChunkFrames(Some(p), n).value) + rest)
            == Ok(UpstreamRequest.Decoded(p, |Slices(p, |p| / n)|, CRLF + rest))
  {
    var cs := |p| / n;
    var ps := Slices(p, cs);
    SlicesShape(p, cs);
    forall i | 0 <= i < |ps| ensures ps[i] != [] {
      if i < |ps| - 1 { assert |ps[i]| == cs; }
    }
    var last := ResponseEntity.Frame([]);
    ConcatAppend(ResponseEntity.Frames(ps), [last]);
    assert Concat([last]) == last + Concat([]);
    assert Concat(ChunkFrames(Some(p), n).value) + rest
        == [] + Concat(ResponseEntity.Frames(ps)) + last + rest;
    UpstreamRequest.DecodeFrames([], ps, rest);
  }

  /** The loop of `get_chunks`: from offset `i` the piece runs `cs` bytes or to the end. */
  method SplitSlices(p: Bytes, cs: nat) returns (frames: seq<Bytes>)
    requires cs > 0
    ensures frames == ResponseEntity.Frames(Slices(p, cs))
  {
    frames := [];
    var i := 0;
    assert p[i..] == p;
    while i < |p|
      invariant 0 <= i <= |p|
      invariant ResponseEntity.Frames(Slices(p, cs)) == frames + ResponseEntity.Frames(Slices(p[i..], cs))
      decreases |p| - i
    {
      var end := if i + cs <= |p| then i + cs else |p|;
      SlicesStep(p, i, end, cs);
      frames := frames + [ResponseEntity.Frame(p[i..end])];
      i := end;
    }
    assert p[i..] == [];
  }

  lemma SlicesStep(p: Bytes, i: nat, end: nat, cs: nat)
    requires cs > 0 && i < |p| && end == (if i + cs <= |p| then i + cs else |p|)
    ensures ResponseEntity.Frames(Slices(p[i..], cs))
            == [ResponseEntity.Frame(p[i..end])] + ResponseEntity.Frames(Slices(p[end..], cs))
  {
    var rest := p[i..];
    if |rest| <= cs {
      assert p[end..] == [];
      assert rest == p[i..end];
    } else {
      assert rest[..cs] == p[i..end] && rest[cs..] == p[end..];
    }
    assert Slices(rest, cs) == [p[i..end]] + Slices(p[end..], cs);
  }

  /** The draft's `Response`. `data` is `None` while `_data` was never assigned. */
  class Response {
    const headers: Headers
    var packed: Option<Bytes>
    const chunksCount: nat
    var data: Option<string>

    /** `Response(headers, data, chunks_count)`: stores the fields, then `unpack_data`. */
    constructor (headers: Headers, packed: Option<Bytes>, chunksCount: nat)
      ensures this.headers == headers && this.packed == packed && this.chunksCount == chunksCount
      ensures data == if Blanks(headers.items) then Some("") else None
    {
      this.headers := headers;
      this.packed := packed;
      this.chunksCount := chunksCount;
      data := None;
      new;
      UnpackData();
    }

    /** `unpack_data`: with a transfer coding the text is blanked; nothing is decoded. */
    method UnpackData()
      modifies this
      ensures data == if Blanks(headers.items) then Some("") else old(data)
      ensures packed == old(packed)
    {
      if Blanks(headers.items) {
        data := Some("");
      }
    }

    /** `pack_data`: with a transfer coding the payload is blanked; nothing is encoded. */
    method PackData()
      modifies this
      ensures packed == if Blanks(headers.items) then Some([]) else old(packed)
      ensures data == old(data)
    {
      if Blanks(headers.items) {
        packed := Some([]);
      }
    }

    /** The `data` setter. */
    method SetData(value: string)
      modifies this
      ensures data == Some(value)
      ensures packed == if Blanks(headers.items) then Some([]) else old(packed)
    {
      data := Some(value);
      PackData();
    }

    /** `get_chunks` */
    method GetChunks() returns (r: Result<seq<Bytes>>)
      ensures r == ChunkFrames(packed, chunksCount)
    {
      if packed.None? {
        return Err(TypeError);
      }
      var p := packed.value;
      if chunksCount == 0 {
        return Err(ZeroDivisionError);
      }
      var cs := |p| / chunksCount;
      if cs == 0 {
        return Err(ValueError);
      }
      var frames := SplitSlices(p, cs);
      r := Ok(frames + [ResponseEntity.Frame([])]);
    }
  }

  /** The draft's `Request`. */
  class Request {
    const headers: Headers

    /** `Request(request_headers)`: a copy with `Host` set; the client's dictionary is left
        as it was. */
    constructor (requestHeaders: Headers)
      requires requestHeaders.Valid()
      ensures fresh(headers) && headers.Valid()
      ensures headers.items == Assign(requestHeaders.items, "Host", TargetHost)
    {
      var h := new Headers.Copy(requestHeaders);
      h.Set("Host", TargetHost);
      headers := h;
    }

    /** `get_data(response_headers, rfile)` */
    static method GetData(responseHeaders: Headers, rfile: Reader) returns (r: Result<Response>)
      requires Lookup(responseHeaders.items, "Content-Length").Some?
      modifies rfile
      ensures r.Ok? ==> fresh(r.value) && r.value.headers == responseHeaders
      ensures Arrived(r, responseHeaders.items, UpstreamRequest.ReadBody(responseHeaders.items, old(rfile.rest)), rfile.rest)
    {
      var length := ParseInt(Lookup(responseHeaders.items, "Content-Length").value, 10);
      if length.None? {
        return Err(ValueError);
      }
      var data := rfile.Read(length.value);
      if data.Err? {
        return Err(data.error);
      }
      var resp := new Response(responseHeaders, Some(data.value), 0);
      r := Ok(resp);
    }

    /** `get_chunked_data(response_headers, rfile)`: the loop and `get_chunk_size` are those
        of the package, `UpstreamRequest.ReadChunked`. */
    static method GetChunkedData(responseHeaders: Headers, rfile: Reader) returns (r: Result<Response>)
      requires Lookup(responseHeaders.items, "Content-Length").None?
      requires Lookup(responseHeaders.items, "Transfer-Encoding").Some?
      modifies rfile
      ensures r.Ok? ==> fresh(r.value) && r.value.headers == responseHeaders
      ensures Arrived(r, responseHeaders.items, UpstreamRequest.ReadBody(responseHeaders.items, old(rfile.rest)), rfile.rest)
    {
      var d := UpstreamRequest.ReadChunked(rfile);
      if d.Err? {
        return Err(ValueError);
      }
      var resp := new Response(responseHeaders, Some(d.value.payload), d.value.count);
      r := Ok(resp);
    }

    /** `make_request()` over an open upstream connection: sends the serialized headers,
        which stay as they were, reads the response headers, then the body with
        `Content-Length` checked before `Transfer-Encoding`. */
    method MakeRequest(upstream: Reader, upOut: Writer) returns (r: Result<Response>)
      modifies upstream, upOut
      ensures upOut.log == old(upOut.log) + [Encode(Serialize(headers.items))]
      ensures r.Ok? ==> fresh(r.value) && fresh(r.value.headers)
      ensures var block := HeaderSet.ReadBlock(old(upstream.rest));
              var items := FromList(Fields(block.lines));
              Arrived(r, items, UpstreamRequest.ReadBody(items, block.rest), upstream.rest)
    {
      upOut.Write(headers.ToBytes());
      var responseHeaders := Headers.FromReader(upstream);
      if Lookup(responseHeaders.items, "Content-Length").Some? {
        r := GetData(responseHeaders, upstream);
      } else if Lookup(responseHeaders.items, "Transfer-Encoding").Some? {
        r := GetChunkedData(responseHeaders, upstream);
      } else {
        var resp := new Response(responseHeaders, None, 0);
        r := Ok(resp);
      }
    }
  }

  /** `r` is the response built from header items `items` and body `b`, with `rest` left
      unread; or both failed with a `ValueError`. */
  predicate Arrived(r: Result<Response>, items: seq<Entry<string>>, b: Result<UpstreamRequest.Body>, rest: Bytes)
    reads if r.Ok? then {r.value, r.value.headers} else {}
  {
    && (r.Ok? <==> b.Ok?)
    && (b.Err? ==> r == Err(ValueError))
    && (r.Ok? ==> && r.value.headers.items == items
                  && r.value.packed == b.value.packed
                  && r.value.chunksCount == b.value.count
                  && r.value.data == (if Blanks(items) then Some("") else None)
                  && rest == b.value.rest)
  }
}
