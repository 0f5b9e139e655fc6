/** One client connection: read the request headers, answer a blacklisted path with a fixed
    redirect, otherwise forward the request upstream, rewrite the page when it is gzipped
    HTML, and write the response back in the order iterating it produces. */
module Handler {
  import opened Common
  import opened PyStr
  import opened OrderedMap
  import opened HeaderSet
  import opened ResponseEntity
  import opened UpstreamRequest
  import opened Rewriter
  import opened HtmlParser
  import opened Settings

  /** The path the site redirects away from when the user is logged in. */
  const LoginPath: string := "/auth/login/?checklogin=true"

  /** Paths answered locally, each with the place to redirect to (`None`: answer nothing). */
  const Blacklist: seq<Entry<Option<string>>> := [Entry(LoginPath, Some("/"))]

  const RedirectHeader: string := "HTTP/1.1 302 Found"

  /** What `handle_disabled_path` writes: for a redirect target, the serialized header set
      with the status line and `Location`; nothing for a `None` target; a `KeyError` for a
      path the blacklist does not hold. */
  function DisabledReply(blacklist: seq<Entry<Option<string>>>, path: string): (r: Result<seq<Bytes>>)
    ensures r.Err? <==> path !in Keys(blacklist)
    ensures r.Err? ==> r.error == KeyError(path)
    ensures Lookup(blacklist, path) == Some(None) ==> r == Ok([])
    ensures r.Ok? ==> |r.value| <= 1
  {
    match Lookup(blacklist, path)
    case None => Err(KeyError(path))
    case Some(redirect) =>
      if redirect.None? then Ok([])
      else Ok([Encode(Serialize(RedirectHeader, [Entry("Location", redirect.value)]))])
  }

  /** The logged-in check is answered with exactly a bare 302 to the site root. */
  lemma LoginRedirect()
    ensures DisabledReply(Blacklist, LoginPath) == Ok([Encode("HTTP/1.1 302 Found\r\nLocation: /\r\n\r\n")])
  {
    RedirectBytes(RedirectHeader, "/");
    assert RedirectHeader + "\r\nLocation: " + "/" + "\r\n\r\n" == "HTTP/1.1 302 Found\r\nLocation: /\r\n\r\n";
  }

  lemma RedirectBytes(general: string, target: string)
    ensures Serialize(general, [Entry("Location", target)]) == general + "\r\nLocation: " + target + "\r\n\r\n"
  {
    var items := [Entry("Location", target)];
    assert FieldBlock(items) == "Location: " + target + "\r\n" by {
      assert items[1..] == [];
    }
  }

  /** What the rest of `handle` writes once the upstream response exists: a response
      without a status line raises when it is logged; for gzipped HTML
      the page goes through the rewriter first (whose failure ends the handler before
      anything is written) and is re-packed; then everything iterating the response yields. */
  function Served(reply: Reply, codec: Codec, tokenize: Tokenizer): (e: Emission)
    requires reply.data.Some? <==> GzippedHtml(reply.items, reply.packed)
    ensures e.parts != [] ==>
              && Lookup(reply.items, General).Some?
              && e.parts[0] == Encode(Serialize(Lookup(reply.items, General).value, Remove(reply.items, General)))
  {
    if Lookup(reply.items, General).None? then Emission([], Some(KeyError(General)))
    else if GzippedHtml(reply.items, reply.packed) then
      var m := Modified(map[], reply.data.value, tokenize);
      if m.result.Err? then Emission([], Some(m.result.error))
      else Emitted(reply.items, Some(codec.pack(m.result.value)), reply.count)
    else Emitted(reply.items, reply.packed, reply.count)
  }

  /** What one connection writes to the client, what it sends upstream, and how it ends. */
  datatype Exchange = Exchange(written: seq<Bytes>, sent: seq<Bytes>, result: Result<()>)

  function Finished(failure: Option<Error>): Result<()>
  {
    if failure.Some? then Err(failure.value) else Ok(())
  }

  /** `handle` given what the client sends (`input`) and what the upstream server answers
      (`upstream`). */
  function Handled(input: Bytes, upstream: Bytes, codec: Codec, tokenize: Tokenizer): (x: Exchange)
    ensures x.sent != [] ==>
              var items := FromList(Fields(ReadBlock(input).lines));
              && items != []
              && SecondWord(Assign(items, "Host", TargetHost)).Ok?
              && SecondWord(Assign(items, "Host", TargetHost)).value !in Keys(Blacklist)
    ensures x.sent == [] ==>
              x.written == [] || x.written == [Encode("HTTP/1.1 302 Found\r\nLocation: /\r\n\r\n")]
  {
    var items := FromList(Fields(ReadBlock(input).lines));
    if items == [] then Exchange([], [], Ok(()))
    else Dispatched(items, upstream, codec, tokenize)
  }

  /** `handle` once a non-empty header set has been read: the request gets the upstream
      `Host`, then its path decides between the blacklist and the upstream server. */
  function Dispatched(items: seq<Entry<string>>, upstream: Bytes, codec: Codec, tokenize: Tokenizer): (x: Exchange)
    ensures x.sent != [] ==>
              && SecondWord(Assign(items, "Host", TargetHost)).Ok?
              && SecondWord(Assign(items, "Host", TargetHost)).value !in Keys(Blacklist)
    ensures x.sent == [] ==>
              x.written == [] || x.written == [Encode("HTTP/1.1 302 Found\r\nLocation: /\r\n\r\n")]
  {
    var request := Assign(items, "Host", TargetHost);
    match SecondWord(request)
    case Err(e) => Exchange([], [], Err(e))
    case Ok(path) => Routed(request, path, upstream, codec, tokenize)
  }

  /** A request whose path was read: a blacklisted path is answered locally, any other is
      forwarded. */
  function Routed(request: seq<Entry<string>>, path: string, upstream: Bytes, codec: Codec, tokenize: Tokenizer)
    : (x: Exchange)
    requires Lookup(request, General).Some?
    ensures x.sent != [] ==> path !in Keys(Blacklist)
    ensures x.sent == [] ==>
              x.written == [] || x.written == [Encode("HTTP/1.1 302 Found\r\nLocation: /\r\n\r\n")]
  {
    if path in Keys(Blacklist) then
      LoginRedirect();
      Exchange(DisabledReply(Blacklist, path).value, [], Ok(()))
    else Forwarded(request, upstream, codec, tokenize)
  }

  /** A request that is not blacklisted: it is sent upstream, and the response is served. */
  function Forwarded(request: seq<Entry<string>>, upstream: Bytes, codec: Codec, tokenize: Tokenizer): (x: Exchange)
    requires Lookup(request, General).Some?
    ensures x.sent == [Encode(Serialize(Lookup(request, General).value, Remove(request, General)))]
  {
    var sent := [Encode(Serialize(Lookup(request, General).value, Remove(request, General)))];
    match Fetched(upstream, codec)
    case Err(e) => Exchange([], sent, Err(e))
    case Ok(reply) =>
      var e := Served(reply, codec, tokenize);
      Exchange(e.parts, sent, Finished(e.failure))
  }

  /** A request for the login check, whatever its method and version, is answered with the
      fixed redirect and never reaches the upstream server. */
  lemma {:induction false} LoginNeverForwarded(input: Bytes, upstream: Bytes, codec: Codec, tokenize: Tokenizer,
                                              method_: string, version: string)
    requires IsWord(method_)
    requires Lookup(FromList(Fields(ReadBlock(input).lines)), General)
             == Some(method_ + " " + LoginPath + " " + version)
    ensures Handled(input, upstream, codec, tokenize)
            == Exchange([Encode("HTTP/1.1 302 Found\r\nLocation: /\r\n\r\n")], [], Ok(()))
  {
    var items := FromList(Fields(ReadBlock(input).lines));
    var request := Assign(items, "Host", TargetHost);
    AssignLookup(items, "Host", TargetHost, General);
    LoginIsWord();
    PathOfLine(request, method_, LoginPath, version);
    LoginRedirect();
  }

  lemma LoginIsWord()
    ensures IsWord(LoginPath)
  {
  }

  /** Only gzipped HTML goes through the rewriter: for any other response the tokenizer
      makes no difference to what is written. */
  lemma RewriteOnlyGzippedHtml(reply: Reply, codec: Codec, tokenize: Tokenizer, other: Tokenizer)
    requires reply.data.Some? <==> GzippedHtml(reply.items, reply.packed)
    requires Served(reply, codec, tokenize) != Served(reply, codec, other)
    ensures GzippedHtml(reply.items, reply.packed)
  {
  }

  /** A gzipped page in which the parser reports nothing to change, whose line breaks are
      bare line feeds and which does not end in one, is re-packed from its own text. */
  lemma QuietPageResent(reply: Reply, codec: Codec, tokenize: Tokenizer)
    requires GzippedHtml(reply.items, reply.packed) && reply.data.Some?
    requires var t := Run(reply.data.value, Callbacks, Initial, tokenize(reply.data.value));
             t.failure.None? && forall i :: 0 <= i < |t.calls| ==> Quiet(t.calls[i])
    requires OnlyLfBreaks(reply.data.value)
    requires reply.data.value == [] || reply.data.value[|reply.data.value| - 1] != '\n'
    ensures Served(reply, codec, tokenize)
            == Emitted(reply.items, Some(codec.pack(reply.data.value)), reply.count)
  {
    ModifyQuietIdentity(map[], reply.data.value, tokenize);
  }

  /** `handle_disabled_path(path)` */
  method HandleDisabledPath(path: string, wfile: Writer) returns (r: Result<()>)
    modifies wfile
    ensures var d := DisabledReply(Blacklist, path);
            && r == (if d.Ok? then Ok(()) else Err(d.error))
            && wfile.log == old(wfile.log) + (if d.Ok? then d.value else [])
  {
    var redirect := Lookup(Blacklist, path);
    if redirect.None? {
      return Err(KeyError(path));
    }
    if redirect.value.Some? {
      var initial := [Entry(General, RedirectHeader), Entry("Location", redirect.value.value)];
      var headers := new Headers([], initial);
      assert headers.items == initial;
      var b := headers.ToBytes();
      assert Remove(initial, General) == initial[1..];
      wfile.Write(b.value);
    }
    r := Ok(());
  }

  /** `handle()` over the client connection (`rfile`, `wfile`) and an open connection to the
      upstream server (`upstream` to read from, `upOut` to send on). */
  method Handle(rfile: Reader, wfile: Writer, upstream: Reader, upOut: Writer, codec: Codec, tokenize: Tokenizer)
    returns (r: Result<()>)
    requires rfile != upstream && wfile != upOut
    modifies rfile, wfile, upstream, upOut
    ensures var x := Handled(old(rfile.rest), old(upstream.rest), codec, tokenize);
            && wfile.log == old(wfile.log) + x.written
            && upOut.log == old(upOut.log) + x.sent
            && r == x.result
            && (x.sent == [] ==> upstream.rest == old(upstream.rest))
    ensures rfile.rest == ReadBlock(old(rfile.rest)).rest
  {
    var headers := Headers.FromReader(rfile);
    if headers.items == [] {
      return Ok(());
    }
    r := Dispatch(headers, wfile, upstream, upOut, codec, tokenize);
  }

  /** The rest of `handle()` once the header set is read and is not empty. */
  method Dispatch(headers: Headers, wfile: Writer, upstream: Reader, upOut: Writer, codec: Codec, tokenize: Tokenizer)
    returns (r: Result<()>)
    requires headers.Valid() && wfile != upOut
    modifies wfile, upstream, upOut
    ensures var x := Dispatched(headers.items, old(upstream.rest), codec, tokenize);
            && wfile.log == old(wfile.log) + x.written
            && upOut.log == old(upOut.log) + x.sent
            && r == x.result
            && (x.sent == [] ==> upstream.rest == old(upstream.rest))
  {
    var request := new Request(headers);
    var path := request.Path();
    if path.Err? {
      return Err(path.error);
    }
    r := Route(request, path.value, wfile, upstream, upOut, codec, tokenize);
  }

  /** The branch of `handle()` on the request path. */
  method Route(request: Request, path: string, wfile: Writer, upstream: Reader, upOut: Writer,
               codec: Codec, tokenize: Tokenizer) returns (r: Result<()>)
    requires request.headers.Valid() && Lookup(request.headers.items, General).Some?
    requires wfile != upOut
    modifies request.headers, wfile, upstream, upOut
    ensures var x := Routed(old(request.headers.items), path, old(upstream.rest), codec, tokenize);
            && wfile.log == old(wfile.log) + x.written
            && upOut.log == old(upOut.log) + x.sent
            && r == x.result
            && (x.sent == [] ==> upstream.rest == old(upstream.rest))
  {
    if path in Keys(Blacklist) {
      r := HandleDisabledPath(path, wfile);
      return;
    }
    r := Forward(request, wfile, upstream, upOut, codec, tokenize);
  }

  /** `make_request()` and what follows it in `handle`. */
  method Forward(request: Request, wfile: Writer, upstream: Reader, upOut: Writer, codec: Codec, tokenize: Tokenizer)
    returns (r: Result<()>)
    requires request.headers.Valid() && Lookup(request.headers.items, General).Some?
    requires wfile != upOut
    modifies request.headers, wfile, upstream, upOut
    ensures var items := old(request.headers.items);
            upOut.log == old(upOut.log) + [Encode(Serialize(Lookup(items, General).value, Remove(items, General)))]
    ensures var f := Fetched(old(upstream.rest), codec);
            && (f.Err? ==> wfile.log == old(wfile.log) && r == Err(f.error))
            && (f.Ok? ==> var e := Served(f.value, codec, tokenize);
                          wfile.log == old(wfile.log) + e.parts && r == Finished(e.failure))
  {
    ghost var want := Fetched(upstream.rest, codec);
    var response := request.MakeRequest(upstream, upOut, codec);
    if response.Err? {
      return Err(response.error);
    }
    r := Respond(response.value, wfile, tokenize, want.value);
  }

  /** The end of `handle` once the upstream response exists: log its status line, rewrite a
      gzipped HTML page, then write every part iterating the response yields, in order. */
  method Respond(resp: Response, wfile: Writer, tokenize: Tokenizer, ghost reply: Reply) returns (r: Result<()>)
    requires resp.Valid()
    requires reply == Reply(resp.headers.items, resp.packed, resp.chunksCount, resp.data)
    requires reply.data.Some? <==> GzippedHtml(reply.items, reply.packed)
    modifies resp, resp.headers, wfile
    ensures var e := Served(reply, resp.codec, tokenize);
            && wfile.log == old(wfile.log) + e.parts
            && r == Finished(e.failure)
  {
    if Lookup(resp.headers.items, General).None? {
      return Err(KeyError(General));
    }
    if GzippedHtml(resp.headers.items, resp.packed) {
      var modifier := new Modifier();
      var modified := modifier.ModifyData(resp.data.value, tokenize);
      if modified.Err? {
        return Err(modified.error);
      }
      resp.SetData(modified.value);
    }
    var e := resp.Iterate();
    assert e == Served(reply, resp.codec, tokenize);
    WriteAll(wfile, e.parts);
    r := Finished(e.failure);
  }

  /** `for chunk in response: wfile.write(chunk)` */
  method WriteAll(wfile: Writer, parts: seq<Bytes>)
    modifies wfile
    ensures wfile.log == old(wfile.log) + parts
  {
    var i := 0;
    while i < |parts|
      invariant 0 <= i <= |parts|
      invariant wfile.log == old(wfile.log) + parts[..i]
    {
      wfile.Write(parts[i]);
      assert parts[..i + 1] == parts[..i] + [parts[i]];
      i := i + 1;
    }
    assert parts[..i] == parts;
  }
}
