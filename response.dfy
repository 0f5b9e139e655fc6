/** The upstream response as the proxy holds it: a header set, the payload as received
    (`packed`), the number of chunks it arrived in, and the decoded text of a gzipped HTML
    body. Includes the chunked re-encoding of section 7.1 of RFC 9112 used on the way out. */
module ResponseEntity {
  import opened Common
  import opened PyStr
  import opened PyInt
  import opened OrderedMap
  import opened HeaderSet
  import opened Settings

  const HtmlContentType: string := "text/html; charset=UTF-8"

  /** gzip with UTF-8 on top, which the model does not look inside: `pack` is
      `gzip.compress(text.encode('utf8'))` and `unpack` is
      `gzip.decompress(data).decode('utf8')`, `None` when either step fails. */
  datatype Codec = Codec(pack: string -> Bytes, unpack: Bytes -> Option<string>)

  /** `is_chunked`: the exact, case-sensitive value "chunked" and a payload. */
  predicate Chunked(items: seq<Entry<string>>, packed: Option<Bytes>) {
    Lookup(items, "Transfer-Encoding") == Some("chunked") && packed.Some?
  }

  /** `is_gzipped_html`: exact, case-sensitive header values and a payload. */
  predicate GzippedHtml(items: seq<Entry<string>>, packed: Option<Bytes>) {
    && Lookup(items, "Content-Encoding") == Some("gzip")
    && Lookup(items, "Content-Type") == Some(HtmlContentType)
    && packed.Some?
  }

  /** The second white-space separated word of the start line: `headers['general']`
      raises `KeyError`, `split()[1]` raises `IndexError`. */
  function SecondWord(items: seq<Entry<string>>): (r: Result<string>)
    ensures Lookup(items, General).None? ==> r == Err(KeyError(General))
    ensures r.Ok? ==> IsWord(r.value)
  {
    match Lookup(items, General)
    case None => Err(KeyError(General))
    case Some(g) =>
      var words := Words(g);
      if |words| < 2 then Err(IndexError) else Ok(words[1])
  }

  /** `status`: the second word of the status line as a decimal integer. */
  function Status(items: seq<Entry<string>>): (r: Result<int>)
    ensures Lookup(items, General).None? ==> r == Err(KeyError(General))
    ensures Lookup(items, General).Some? && |Words(Lookup(items, General).value)| < 2 ==>
              r == Err(IndexError)
    ensures r.Err? ==> r.error in {KeyError(General), IndexError, ValueError}
  {
    var w :- SecondWord(items);
    match ParseInt(w, 10)
    case None => Err(ValueError)
    case Some(n) => Ok(n)
  }

  /** Decimal digits are a word of their own. */
  lemma DigitsWord(code: nat)
    ensures IsWord(Format(code, 10))
  {
    var digits := Format(code, 10);
    forall i | 0 <= i < |digits| ensures !IsWs(digits[i], false) {
      assert IsDigit(digits[i], 10);
    }
  }

  /** The second word of `version code reason` is the code. */
  lemma SecondWordOfLine(version: string, w: string, reason: string)
    requires IsWord(version) && IsWord(w)
    ensures |Words(version + " " + w + " " + reason)| >= 2
    ensures Words(version + " " + w + " " + reason)[1] == w
  {
    var x := w + " " + reason;
    var s := version + " " + w + " " + reason;
    assert s == version + " " + x;
    WordsCons(version, x);
    WordsCons(w, reason);
    calc {
      Words(s);
      [version] + Words(x);
      [version] + ([w] + Words(reason));
    }
  }

  /** A status line `version code reason` yields its code. */
  lemma StatusOfLine(items: seq<Entry<string>>, version: string, code: nat, reason: string)
    requires IsWord(version)
    requires Lookup(items, General) == Some(version + " " + Format(code, 10) + " " + reason)
    ensures Status(items) == Ok(code)
  {
    DigitsWord(code);
    SecondWordOfLine(version, Format(code, 10), reason);
    assert SecondWord(items) == Ok(Format(code, 10));
    ParseFormat(code, 10);
  }

  /** The header set after `fix_redirect`: for status 301 or 302 every occurrence of the
      upstream link in `Location` becomes the local link. A bad status line or a redirect
      without `Location` is an error. */
  function Redirected(items: seq<Entry<string>>): (r: Result<seq<Entry<string>>>)
    ensures Status(items).Err? ==> r == Err(Status(items).error)
    ensures r.Ok? && r.value != items ==>
              && Status(items).value in {301, 302}
              && Lookup(items, "Location").Some?
              && Contains(Lookup(items, "Location").value, TargetLink)
  {
    var status :- Status(items);
    if status != 301 && status != 302 then Ok(items)
    else
      match Lookup(items, "Location")
      case None => Err(KeyError("Location"))
      case Some(location) =>
        if Contains(location, TargetLink) then
          Ok(Assign(items, "Location", Replace(location, TargetLink, LocalLink)))
        else Ok(items)
  }

  /** After the rewrite no `Location` holds the upstream link, every other header is as it
      was, and rewriting again changes nothing. */
  lemma RedirectedFixed(items: seq<Entry<string>>)
    requires Redirected(items).Ok?
    ensures forall k :: k != "Location" ==> Lookup(Redirected(items).value, k) == Lookup(items, k)
    ensures Status(items) in {Ok(301), Ok(302)} ==>
              !Contains(Lookup(Redirected(items).value, "Location").value, TargetLink)
    ensures Redirected(Redirected(items).value) == Redirected(items)
  {
    var st := Status(items);
    if st.Ok? && (st.value == 301 || st.value == 302) {
      var location := Lookup(items, "Location").value;
      if Contains(location, TargetLink) {
        var fixed := Replace(location, TargetLink, LocalLink);
        var r := Assign(items, "Location", fixed);
        assert Redirected(items) == Ok(r);
        RedirectLookup(items, fixed);
        LinksDoNotOverlap();
        ReplaceRemovesAll(location, TargetLink, LocalLink);
        RedirectAgain(r, fixed);
      }
    }
  }

  lemma RedirectLookup(items: seq<Entry<string>>, fixed: string)
    ensures forall k :: Lookup(Assign(items, "Location", fixed), k) ==
                        if k == "Location" then Some(fixed) else Lookup(items, k)
    ensures Status(Assign(items, "Location", fixed)) == Status(items)
  {
    forall k ensures Lookup(Assign(items, "Location", fixed), k) ==
                     if k == "Location" then Some(fixed) else Lookup(items, k) {
      AssignLookup(items, "Location", fixed, k);
    }
    assert SecondWord(Assign(items, "Location", fixed)) == SecondWord(items);
  }

  lemma RedirectAgain(r: seq<Entry<string>>, fixed: string)
    requires Lookup(r, "Location") == Some(fixed) && !Contains(fixed, TargetLink)
    ensures Redirected(r) == if Status(r).Err? then Err(Status(r).error) else Ok(r)
  {
  }

  /** One chunk: its length in lower-case hex, CRLF, the bytes, CRLF. */
  function Frame(piece: Bytes): Bytes
  {
    Encode(Format(|piece|, 16)) + CRLF + piece + CRLF
  }

  /** The last chunk, `0\r\n\r\n`. */
  lemma LastFrame()
    ensures Frame([]) == [48, 13, 10, 13, 10]
  {
    assert Format(0, 16) == "0";
  }

  function Frames(pieces: seq<Bytes>): (fs: seq<Bytes>)
    ensures |fs| == |pieces|
  {
    if pieces == [] then [] else [Frame(pieces[0])] + Frames(pieces[1..])
  }

  /** The split `get_chunks` makes with nominal size `cs`: pieces of `cs` bytes until the
      rest is shorter than one and a half pieces, which goes whole into the last one. */
  function Pieces(p: Bytes, cs: nat): (ps: seq<Bytes>)
    requires cs > 0
    ensures ps == [] <==> p == []
    ensures forall i :: 0 <= i < |ps| ==> ps[i] != []
    decreases |p|
  {
    if p == [] then []
    else if 2 * |p| < 3 * cs then [p]
    else [p[..cs]] + Pieces(p[cs..], cs)
  }

  /** The pieces put back together are the payload. */
  lemma {:induction false} PiecesConcat(p: Bytes, cs: nat)
    requires cs > 0
    ensures Concat(Pieces(p, cs)) == p
    decreases |p|
  {
    if p != [] && 2 * |p| >= 3 * cs {
      PiecesConcat(p[cs..], cs);
      assert Pieces(p, cs)[1..] == Pieces(p[cs..], cs);
      assert p[..cs] + p[cs..] == p;
    }
  }

  /** Every piece but the last has the nominal size; the last is non-empty and shorter than
      one and a half nominal pieces. */
  lemma {:induction false} PiecesShape(p: Bytes, cs: nat)
    requires cs > 0
    ensures var ps := Pieces(p, cs);
            && (p != [] <==> ps != [])
            && (forall i :: 0 <= i < |ps| - 1 ==> |ps[i]| == cs)
            && (ps != [] ==> 0 < |ps[|ps| - 1]| && 2 * |ps[|ps| - 1]| < 3 * cs)
            && (ps != [] ==> |p| == (|ps| - 1) * cs + |ps[|ps| - 1]|)
    decreases |p|
  {
    if p != [] && 2 * |p| >= 3 * cs {
      var ps := Pieces(p, cs);
      var tail := Pieces(p[cs..], cs);
      PiecesShape(p[cs..], cs);
      assert ps == [p[..cs]] + tail;
      assert forall i :: 1 <= i < |ps| ==> ps[i] == tail[i - 1];
      assert |p| == cs + |p[cs..]|;
    }
  }

  /** Splitting `L` bytes for `N` chunks (nominal size `cs = L / N`) gives at least `N`
      pieces: `N` when the remainder `L mod N` is under half a piece, and `N + 1` when it
      is between half and one and a half pieces. */
  lemma PiecesCount(p: Bytes, n: nat)
    requires n > 0 && |p| / n > 0
    ensures |Pieces(p, |p| / n)| >= n
    ensures 2 * (|p| % n) < |p| / n ==> |Pieces(p, |p| / n)| == n
    ensures |p| / n <= 2 * (|p| % n) < 3 * (|p| / n) ==> |Pieces(p, |p| / n)| == n + 1
  {
    var cs := |p| / n;
    var m := |p| % n;
    PiecesAtLeast(p, n);
    DivParts(|p|, n);
    PiecesSkipN(p, n, cs, m);
    var r := p[|p| - cs - m..];
    assert |r| == cs + m;
    if cs <= 2 * m < 3 * cs {
      assert Pieces(r, cs) == [r[..cs]] + Pieces(r[cs..], cs);
      assert |r[cs..]| == m;
    }
  }

  lemma PiecesAtLeast(p: Bytes, n: nat)
    requires n > 0 && |p| / n > 0
    ensures |Pieces(p, |p| / n)| >= n
  {
    var cs := |p| / n;
    DivParts(|p|, n);
    PiecesShape(p, cs);
    var k := |Pieces(p, cs)|;
    AtLeastArith(|p|, n, cs, k, |Pieces(p, cs)[k - 1]|);
  }

  /** `l = (k - 1) * cs + t` with `t < 1.5 * cs` and `l >= n * cs` give `k >= n`. */
  lemma AtLeastArith(l: int, n: int, cs: int, k: int, t: int)
    requires l == (k - 1) * cs + t && 2 * t < 3 * cs && n * cs <= l && k >= 1 && cs >= 1
    ensures k >= n
  {
    if k < n {
      MulMono(k + 1, n, cs);
    }
  }

  /** With `|p| = n * cs + m`, the first `n - 1` pieces are whole steps. */
  lemma PiecesSkipN(p: Bytes, n: nat, cs: nat, m: nat)
    requires n > 0 && cs > 0 && |p| == n * cs + m
    ensures 0 <= |p| - cs - m
    ensures |Pieces(p, cs)| == n - 1 + |Pieces(p[|p| - cs - m..], cs)|
  {
    var j: nat := n - 1;
    SkipArith(|p|, n, cs, m);
    PiecesSkip(p, cs, j, |p| - cs - m);
  }

  /** Euclidean division of a length by a positive count. */
  lemma DivParts(l: nat, n: nat)
    requires n > 0
    ensures l == n * (l / n) + l % n && 0 <= l % n < n
    ensures l / n == 0 <==> l < n
  {
  }

  lemma SkipArith(l: int, n: int, cs: int, m: int)
    requires l == n * cs + m && n >= 1 && cs >= 1 && m >= 0
    ensures (n - 1) * cs + cs + m == l && (n - 1) * cs <= l
    ensures n == 1 || 2 * (l - (n - 2) * cs) >= 3 * cs
  {
    assert n * cs == (n - 1) * cs + cs;
    if n >= 2 {
      assert (n - 1) * cs == (n - 2) * cs + cs;
    }
  }

  lemma MulMono(a: nat, b: nat, c: nat)
    requires a <= b
    ensures a * c <= b * c
  {
  }

  /** The first `j` pieces have the nominal size while at least one and a half remain;
      `off` is the `j * cs` bytes they cover. */
  lemma {:induction false} PiecesSkip(p: Bytes, cs: nat, j: nat, off: nat)
    requires cs > 0 && off == j * cs && off <= |p|
    requires j == 0 || 2 * (|p| - off + cs) >= 3 * cs
    ensures |Pieces(p, cs)| == j + |Pieces(p[off..], cs)|
    decreases j
  {
    if j > 0 {
      var q := p[cs..];
      assert off - cs == (j - 1) * cs && off >= cs by {
        StepMul(j, cs);
      }
      assert Pieces(p, cs) == [p[..cs]] + Pieces(q, cs);
      PiecesSkip(q, cs, j - 1, off - cs);
      assert q[off - cs..] == p[off..];
    }
  }

  lemma StepMul(j: nat, cs: nat)
    requires j > 0
    ensures j * cs == (j - 1) * cs + cs && (j - 1) * cs >= 0
  {
  }

  /** `list(get_chunks())` on a chunked payload: `N == 0` raises `ZeroDivisionError`, a
      nominal size of zero (`L < N`) makes `range` raise `ValueError`; otherwise the
      frames of the pieces and the last chunk. */
  function ChunkFrames(p: Bytes, n: nat): (r: Result<seq<Bytes>>)
    ensures r.Ok? <==> n > 0 && |p| >= n
    ensures r.Ok? ==> |r.value| > 0 && r.value[|r.value| - 1] == Frame([])
  {
    if n == 0 then Err(ZeroDivisionError)
    else
      DivParts(|p|, n);
      if |p| / n == 0 then Err(ValueError)
      else Ok(Frames(Pieces(p, |p| / n)) + [Frame([])])
  }

  /** The loop of `get_chunks`: walks the payload in steps of `cs`, framing a whole step
      while at least one and a half remain and the whole rest otherwise. */
  method SplitFrames(p: Bytes, cs: nat) returns (frames: seq<Bytes>)
    requires cs > 0
    ensures frames == Frames(Pieces(p, cs))
  {
    frames := [];
    var i := 0;
    assert p[i..] == p;
    while i < |p|
      invariant 0 <= i <= |p|
      invariant Frames(Pieces(p, cs)) == frames + Frames(Pieces(p[i..], cs))
      decreases |p| - i
    {
      if 2 * (|p| - i) < 3 * cs {
        PiecesLast(p[i..], cs);
        frames := frames + [Frame(p[i..])];
        i := |p|;
        break;
      }
      PiecesStep(p, i, cs);
      var frame := Frame(p[i..i + cs]);
      AppendAssoc(frames, [frame], Frames(Pieces(p[i + cs..], cs)));
      frames := frames + [frame];
      i := i + cs;
    }
    assert p[i..] == [];
  }

  lemma PiecesLast(rest: Bytes, cs: nat)
    requires cs > 0 && rest != [] && 2 * |rest| < 3 * cs
    ensures Frames(Pieces(rest, cs)) == [Frame(rest)]
  {
    assert Pieces(rest, cs) == [rest];
  }

  lemma PiecesStep(p: Bytes, i: nat, cs: nat)
    requires cs > 0 && i < |p| && 2 * (|p| - i) >= 3 * cs
    ensures i + cs <= |p|
    ensures Frames(Pieces(p[i..], cs)) == [Frame(p[i..i + cs])] + Frames(Pieces(p[i + cs..], cs))
  {
    var rest := p[i..];
    assert rest[..cs] == p[i..i + cs] && rest[cs..] == p[i + cs..];
    assert Pieces(rest, cs) == [p[i..i + cs]] + Pieces(p[i + cs..], cs);
  }

  /** What iterating the response produces: the header bytes, then the chunk frames when
      chunked, else the payload when there is one; with the error that ended it early. */
  datatype Emission = Emission(parts: seq<Bytes>, failure: Option<Error>)

  function Emitted(items: seq<Entry<string>>, packed: Option<Bytes>, count: nat): (e: Emission)
    ensures Lookup(items, General).None? <==> e.parts == []
    ensures e.parts != [] ==>
              e.parts[0] == Encode(Serialize(Lookup(items, General).value, Remove(items, General)))
  {
    match Lookup(items, General)
    case None => Emission([], Some(KeyError(General)))
    case Some(g) =>
      var rest := Remove(items, General);
      var head := Encode(Serialize(g, rest));
      if Chunked(rest, packed) then
        match ChunkFrames(packed.value, count)
        case Ok(fs) => Emission([head] + fs, None)
        case Err(e) => Emission([head], Some(e))
      else if packed.Some? then Emission([head, packed.value], None)
      else Emission([head], None)
  }

  /** What a successfully built response holds: its header items after the redirect rewrite,
      the payload, the chunk count and the unpacked text. */
  datatype Reply = Reply(items: seq<Entry<string>>, packed: Option<Bytes>, count: nat, data: Option<string>)

  /** The outcome of `Response(headers, packed_data, chunks_count)`: `unpack_data` first, then
      `fix_redirect`, each of which may raise. */
  function Built(items: seq<Entry<string>>, packed: Option<Bytes>, count: nat, codec: Codec): (r: Result<Reply>)
    ensures r.Ok? ==> r.value.packed == packed && r.value.count == count
    ensures r.Ok? ==> Redirected(r.value.items) == Ok(r.value.items)
    ensures r.Ok? ==> (r.value.data.Some? <==> GzippedHtml(r.value.items, packed))
  {
    var data :- Unpacked(items, packed, codec);
    var fixed :- Redirected(items);
    RedirectedFixed(items);
    Ok(Reply(fixed, packed, count, data))
  }

  /** The response object `r` is the reply `want` describes, or both are the same error. */
  predicate Delivers(r: Result<Response>, want: Result<Reply>)
    reads if r.Ok? then {r.value, r.value.headers} else {}
  {
    && r.Ok? == want.Ok?
    && (r.Err? ==> r.error == want.error)
    && (r.Ok? ==> want.value == Reply(r.value.headers.items, r.value.packed, r.value.chunksCount, r.value.data))
  }

  class Response {
    const headers: Headers
    var packed: Option<Bytes>
    const chunksCount: nat
    var data: Option<string>
    const codec: Codec

    predicate Valid()
      reads this, headers
    {
      headers.Valid()
    }

    /** Field initialisation only; `unpack_data` and `fix_redirect` follow in `Create`. */
    constructor (headers: Headers, packed: Option<Bytes>, chunksCount: nat, codec: Codec)
      ensures this.headers == headers && this.packed == packed
      ensures this.chunksCount == chunksCount && data == None && this.codec == codec
    {
      this.headers := headers;
      this.packed := packed;
      this.chunksCount := chunksCount;
      this.data := None;
      this.codec := codec;
    }

    /** `Response(headers, packed_data, chunks_count)`: unpacks a gzipped HTML body, then
        rewrites a redirect; either may raise. */
    static method Create(headers: Headers, packed: Option<Bytes>, chunksCount: nat, codec: Codec)
      returns (r: Result<Response>)
      requires headers.Valid()
      modifies headers
      ensures r.Ok? ==> fresh(r.value) && r.value.headers == headers && r.value.Valid()
      ensures r.Ok? ==> r.value.codec == codec
      ensures Delivers(r, Built(old(headers.items), packed, chunksCount, codec))
      ensures r.Ok? ==> r.value.packed == packed && r.value.chunksCount == chunksCount
      ensures r.Ok? ==> Unpacked(old(headers.items), packed, codec) == Ok(r.value.data)
      ensures r.Ok? ==> Redirected(old(headers.items)) == Ok(headers.items)
      ensures Unpacked(old(headers.items), packed, codec).Err? ==>
                r == Err(CompressionError) && headers.items == old(headers.items)
      ensures Unpacked(old(headers.items), packed, codec).Ok? && Redirected(old(headers.items)).Err? ==>
                r == Err(Redirected(old(headers.items)).error) && headers.items == old(headers.items)
    {
      var resp := new Response(headers, packed, chunksCount, codec);
      var u := resp.UnpackData();
      if u.Err? {
        return Err(u.error);
      }
      var f := resp.FixRedirect();
      if f.Err? {
        return Err(f.error);
      }
      r := Ok(resp);
    }

    /** `unpack_data`: decodes the payload of a gzipped HTML response. */
    method UnpackData() returns (r: Result<()>)
      modifies this
      ensures packed == old(packed)
      ensures r.Ok? <==> Unpacked(headers.items, packed, codec).Ok?
      ensures r.Ok? && GzippedHtml(headers.items, packed) ==>
                data == Unpacked(headers.items, packed, codec).value
      ensures r.Err? ==> r.error == CompressionError
      ensures r.Err? || !GzippedHtml(headers.items, packed) ==> data == old(data)
    {
      if GzippedHtml(headers.items, packed) {
        match codec.unpack(packed.value)
        case None => return Err(CompressionError);
        case Some(text) => data := Some(text);
      }
      r := Ok(());
    }

    /** `fix_redirect` */
    method FixRedirect() returns (r: Result<()>)
      requires Valid()
      modifies headers
      ensures Valid()
      ensures r.Ok? <==> Redirected(old(headers.items)).Ok?
      ensures r.Ok? ==> headers.items == Redirected(old(headers.items)).value
      ensures r.Err? ==> r.error == Redirected(old(headers.items)).error
                         && headers.items == old(headers.items)
    {
      var status := Status(headers.items);
      if status.Err? {
        return Err(status.error);
      }
      if status.value == 301 || status.value == 302 {
        var location := Lookup(headers.items, "Location");
        if location.None? {
          return Err(KeyError("Location"));
        }
        if Contains(location.value, TargetLink) {
          headers.Set("Location", Replace(location.value, TargetLink, LocalLink));
        }
      }
      r := Ok(());
    }

    /** The `data` setter: stores the text and, for gzipped HTML, re-packs it. */
    method SetData(value: string)
      modifies this
      ensures data == Some(value)
      ensures packed == if GzippedHtml(headers.items, old(packed))
                        then Some(codec.pack(value)) else old(packed)
    {
      data := Some(value);
      if GzippedHtml(headers.items, packed) {
        packed := Some(codec.pack(value));
      }
    }

    /** `get_chunks`: nothing unless chunked; otherwise the frames of `ChunkFrames`,
        produced by walking the payload in steps of the nominal size and stopping at the
        first rest shorter than one and a half steps. */
    method GetChunks() returns (r: Result<seq<Bytes>>)
      ensures !Chunked(headers.items, packed) ==> r == Ok([])
      ensures Chunked(headers.items, packed) ==> r == ChunkFrames(packed.value, chunksCount)
    {
      if !Chunked(headers.items, packed) {
        return Ok([]);
      }
      var p := packed.value;
      if chunksCount == 0 {
        return Err(ZeroDivisionError);
      }
      var cs := |p| / chunksCount;
      if cs == 0 {
        return Err(ValueError);
      }
      var frames := SplitFrames(p, cs);
      r := Ok(frames + [Frame([])]);
    }

    /** `list(response)` as the handler consumes it: serializing the headers removes the
        start line from them. */
    method Iterate() returns (e: Emission)
      requires Valid()
      modifies headers
      ensures Valid()
      ensures e == Emitted(old(headers.items), packed, chunksCount)
      ensures headers.items == Remove(old(headers.items), General)
    {
      var head := headers.ToBytes();
      if head.Err? {
        return Emission([], Some(head.error));
      }
      var parts := [head.value];
      if Chunked(headers.items, packed) {
        var frames := GetChunks();
        if frames.Err? {
          return Emission(parts, Some(frames.error));
        }
        parts := parts + frames.value;
      } else if packed.Some? {
        parts := parts + [packed.value];
      }
      e := Emission(parts, None);
    }
  }

  /** The text `unpack_data` leaves in `data`. */
  function Unpacked(items: seq<Entry<string>>, packed: Option<Bytes>, codec: Codec): (r: Result<Option<string>>)
    ensures r.Err? ==> r.error == CompressionError && GzippedHtml(items, packed)
    ensures r.Ok? && r.value.Some? ==> GzippedHtml(items, packed)
  {
    if GzippedHtml(items, packed) then
      match codec.unpack(packed.value)
      case None => Err(CompressionError)
      case Some(text) => Ok(Some(text))
    else Ok(None)
  }
}
