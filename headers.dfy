/** The header block of an HTTP message as the proxy keeps it: a dictionary from field name
    to value in which the start line (request line or status line) is stored under the
    key "general". */
module HeaderSet {
  import opened Common
  import opened PyStr
  import opened OrderedMap

  /** The key under which the start line is kept. */
  const General: string := "general"

  /** What one received line contributes: a line with a colon is split at the first one
      into a name, kept verbatim, and a value with surrounding white space stripped; any
      other line is the start line, stripped. */
  function Field(line: Bytes): (e: Entry<string>)
    ensures ':' !in e.key
    ensures e.key != General ==> e.key + ":" <= Decode(line)
  {
    var text := Decode(line);
    var i := IndexOf(text, ':');
    if i < |text| then
      assert text[..i] + ":" == text[..i + 1];
      Entry(text[..i], Strip(text[i + 1..]))
    else Entry(General, Strip(text))
  }

  function Fields(lines: seq<Bytes>): (es: seq<Entry<string>>)
    ensures |es| == |lines| && forall i :: 0 <= i < |lines| ==> es[i] == Field(lines[i])
  {
    seq(|lines|, i requires 0 <= i < |lines| => Field(lines[i]))
  }

  /** The `name: value` line of one field. */
  function FieldLine(e: Entry<string>): string { e.key + ": " + e.value }

  /** Every field line followed by CRLF. */
  function FieldBlock(items: seq<Entry<string>>): string
  {
    if items == [] then [] else FieldLine(items[0]) + "\r\n" + FieldBlock(items[1..])
  }

  function FieldLines(items: seq<Entry<string>>): (ls: seq<string>)
    ensures |ls| == |items| && forall i :: 0 <= i < |items| ==> ls[i] == FieldLine(items[i])
  {
    seq(|items|, i requires 0 <= i < |items| => FieldLine(items[i]))
  }

  /** The start line, the field lines and an empty line, joined with CRLF after an extra
      CRLF element: the block ends with an empty line. */
  function Serialize(general: string, items: seq<Entry<string>>): (s: string)
    ensures s == general + "\r\n" + FieldBlock(items) + "\r\n"
  {
    var parts := [general] + FieldLines(items) + ["\r\n"];
    JoinFieldLines(items);
    assert parts[1..] == FieldLines(items) + ["\r\n"];
    Join(parts, "\r\n")
  }

  lemma {:induction false} JoinFieldLines(items: seq<Entry<string>>)
    ensures Join(FieldLines(items) + ["\r\n"], "\r\n") == FieldBlock(items) + "\r\n"
  {
    if items == [] {
      assert FieldLines(items) + ["\r\n"] == ["\r\n"];
    } else {
      var parts := FieldLines(items) + ["\r\n"];
      assert parts[1..] == FieldLines(items[1..]) + ["\r\n"];
      JoinFieldLines(items[1..]);
    }
  }

  /** The header lines `from_rfile` collects and the stream after them. */
  datatype Block = Block(lines: seq<Bytes>, rest: Bytes)

  /** Lines up to end of stream or up to a bare CRLF line, which is consumed. */
  function ReadBlock(s: Bytes): (b: Block)
    ensures forall i :: 0 <= i < |b.lines| ==> b.lines[i] != [] && b.lines[i] != CRLF
    ensures |b.rest| <= |s|
    decreases |s|
  {
    var line := LineOf(s);
    if line == [] || line == CRLF then Block([], s[|line|..])
    else
      var b := ReadBlock(s[|line|..]);
      Block([line] + b.lines, b.rest)
  }

  /** One complete line of text that neither ends the block nor is split by `readline`. */
  predicate ProperLine(l: Bytes) {
    && l != [] && l != CRLF && l[|l| - 1] == LF
    && forall i :: 0 <= i < |l| - 1 ==> l[i] != LF
  }

  /** Proper lines followed by an empty line are read back exactly. */
  lemma {:induction false} ReadBlockLines(ls: seq<Bytes>, rest: Bytes)
    requires forall i :: 0 <= i < |ls| ==> ProperLine(ls[i])
    ensures ReadBlock(Concat(ls) + CRLF + rest) == Block(ls, rest)
  {
    var s := Concat(ls) + CRLF + rest;
    if ls == [] {
      assert s == CRLF + rest;
      LineOfPrefix(CRLF, rest);
    } else {
      assert s == ls[0] + (Concat(ls[1..]) + CRLF + rest);
      LineOfPrefix(ls[0], Concat(ls[1..]) + CRLF + rest);
      assert s[|ls[0]|..] == Concat(ls[1..]) + CRLF + rest;
      ReadBlockLines(ls[1..], rest);
      assert [ls[0]] + ls[1..] == ls;
    }
  }

  /** The start line is well formed for a round trip: non-empty (an empty one would read as
      the end of the block), without colon or line feed, stripped, one byte per character. */
  predicate GoodGeneral(g: string) {
    g != [] && ':' !in g && '\n' !in g && IsStripped(g) && IsLatin1(g)
  }

  /** A field is well formed for a round trip: a name without colon or line feed, a stripped
      value without line feed, one byte per character. */
  predicate GoodField(e: Entry<string>) {
    ':' !in e.key && '\n' !in e.key && '\n' !in e.value && IsStripped(e.value)
    && IsLatin1(e.key) && IsLatin1(e.value)
  }

  /** The received form of a text line. */
  function Wire(t: string): Bytes { Encode(t + "\r\n") }

  lemma WireProper(t: string)
    requires t != [] && '\n' !in t && IsLatin1(t)
    ensures ProperLine(Wire(t))
  {
    var l := Wire(t);
    assert |l| == |t| + 2;
    forall i | 0 <= i < |l| - 1 ensures l[i] != LF {
      if i < |t| {
        assert (t + "\r\n")[i] == t[i];
      }
    }
  }

  lemma GeneralField(g: string)
    requires GoodGeneral(g)
    ensures Field(Wire(g)) == Entry(General, g)
  {
    var t := g + "\r\n";
    assert forall j :: 0 <= j < |g| ==> t[j] == g[j];
    assert IsLatin1(t);
    DecodeEncode(t);
    IndexOfAt(t, ':', |t|);
    assert [] + g + "\r\n" == t;
    StripPadded([], g, "\r\n");
  }

  /** A line whose text is a colon-free name, a colon and a rest is that name with the
      rest stripped. */
  lemma FieldSplit(line: Bytes, k: string, w: string)
    requires Decode(line) == k + ":" + w && ':' !in k
    ensures Field(line) == Entry(k, Strip(w))
  {
    var t := Decode(line);
    assert forall j :: 0 <= j < |k| ==> t[j] == k[j];
    IndexOfAt(t, ':', |k|);
    assert t[..|k|] == k;
    assert t[|k| + 1..] == w;
  }

  lemma WireText(e: Entry<string>)
    requires GoodField(e)
    ensures Decode(Wire(FieldLine(e))) == e.key + ":" + (" " + e.value + "\r\n")
  {
    var t := FieldLine(e) + "\r\n";
    FieldLineGood(e);
    assert IsLatin1(t) by {
      assert forall j :: 0 <= j < |FieldLine(e)| ==> t[j] == FieldLine(e)[j];
    }
    DecodeEncode(t);
  }

  lemma FieldOfLine(e: Entry<string>)
    requires GoodField(e)
    ensures Field(Wire(FieldLine(e))) == e
  {
    WireText(e);
    FieldSplit(Wire(FieldLine(e)), e.key, " " + e.value + "\r\n");
    StripPadded(" ", e.value, "\r\n");
  }

  /** The received form of a whole serialized block is the received form of its lines. */
  lemma {:induction false} EncodeBlock(items: seq<Entry<string>>)
    ensures Encode(FieldBlock(items)) == Concat(WireLines(items))
  {
    if items != [] {
      EncodeBlock(items[1..]);
      EncodeAppend(FieldLine(items[0]) + "\r\n", FieldBlock(items[1..]));
      assert FieldLine(items[0]) + "\r\n" + FieldBlock(items[1..])
          == (FieldLine(items[0]) + "\r\n") + FieldBlock(items[1..]);
      assert WireLines(items)[1..] == WireLines(items[1..]);
    }
  }

  function WireLines(items: seq<Entry<string>>): (ls: seq<Bytes>)
    ensures |ls| == |items| && forall i :: 0 <= i < |items| ==> ls[i] == Wire(FieldLine(items[i]))
  {
    seq(|items|, i requires 0 <= i < |items| => Wire(FieldLine(items[i])))
  }

  /** The received lines of a serialized block: start line, then one per field. */
  function WireAll(g: string, items: seq<Entry<string>>): (ls: seq<Bytes>)
    ensures |ls| == |items| + 1 && ls[0] == Wire(g) && ls[1..] == WireLines(items)
  {
    [Wire(g)] + WireLines(items)
  }

  lemma WireSerialize(g: string, items: seq<Entry<string>>)
    ensures Encode(Serialize(g, items)) == Concat(WireAll(g, items)) + CRLF
  {
    var ls := WireAll(g, items);
    EncodeAppend(g + "\r\n" + FieldBlock(items), "\r\n");
    EncodeAppend(g + "\r\n", FieldBlock(items));
    EncodeBlock(items);
    assert Concat(ls) == Wire(g) + Concat(WireLines(items));
  }

  /** A well-formed field line has a colon and no line feed, one byte per character. */
  lemma FieldLineGood(e: Entry<string>)
    requires GoodField(e)
    ensures FieldLine(e) != [] && '\n' !in FieldLine(e) && IsLatin1(FieldLine(e))
  {
    var t := FieldLine(e);
    assert t[|e.key|] == ':';
    forall j | 0 <= j < |t| ensures t[j] != '\n' && t[j] as int < 256 {
      if j < |e.key| { assert t[j] == e.key[j]; }
      else if |e.key| + 2 <= j { assert t[j] == e.value[j - |e.key| - 2]; }
    }
  }

  lemma WireAllProper(g: string, items: seq<Entry<string>>)
    requires GoodGeneral(g) && forall i :: 0 <= i < |items| ==> GoodField(items[i])
    ensures forall i :: 0 <= i < |items| + 1 ==> ProperLine(WireAll(g, items)[i])
  {
    var ls := WireAll(g, items);
    WireProper(g);
    forall i | 1 <= i < |ls| ensures ProperLine(ls[i]) {
      FieldLineGood(items[i - 1]);
      WireProper(FieldLine(items[i - 1]));
      assert ls[i] == ls[1..][i - 1];
    }
  }

  lemma WireAllFields(g: string, items: seq<Entry<string>>)
    requires GoodGeneral(g) && forall i :: 0 <= i < |items| ==> GoodField(items[i])
    ensures Fields(WireAll(g, items)) == [Entry(General, g)] + items
  {
    var ls := WireAll(g, items);
    GeneralField(g);
    forall i | 0 <= i < |items| ensures Fields(ls)[i + 1] == items[i] {
      FieldOfLine(items[i]);
      assert ls[i + 1] == ls[1..][i];
    }
  }

  /** Reading back the bytes of a serialized header block, followed by anything, yields
      the same dictionary (start line first) and leaves exactly what followed. */
  lemma RoundTrip(g: string, items: seq<Entry<string>>, rest: Bytes)
    requires GoodGeneral(g) && forall i :: 0 <= i < |items| ==> GoodField(items[i])
    requires Distinct([Entry(General, g)] + items)
    ensures ReadBlock(Encode(Serialize(g, items)) + rest).rest == rest
    ensures FromList(Fields(ReadBlock(Encode(Serialize(g, items)) + rest).lines))
            == [Entry(General, g)] + items
  {
    var ls := WireAll(g, items);
    WireSerialize(g, items);
    WireAllProper(g, items);
    ReadBlockLines(ls, rest);
    WireAllFields(g, items);
    AssignAllFresh([], Fields(ls));
    assert [] + Fields(ls) == Fields(ls);
  }

  /** A line without a colon is the start line, stripped. */
  lemma FieldGeneral(line: Bytes)
    requires ':' !in Decode(line)
    ensures Field(line) == Entry(General, Strip(Decode(line)))
  {
    var t := Decode(line);
    IndexOfAt(t, ':', |t|);
  }

  /** After parsing, each name holds the value of its last line (the start line is the
      last line without a colon) and the names appear in order of first occurrence. */
  lemma ParsedLookup(lines: seq<Bytes>, k: string)
    ensures Lookup(FromList(Fields(lines)), k) == LastValue(Fields(lines), k)
    ensures Keys(FromList(Fields(lines))) == Dedup(Keys(Fields(lines)))
  {
    AssignAllLookup([], Fields(lines));
    FromListKeys(Fields(lines));
  }

  /** The `Headers` dictionary of one message. */
  class Headers {
    var items: seq<Entry<string>>

    predicate Valid()
      reads this
    {
      Distinct(items)
    }

    /** `Headers(lines, **initial)`: the initial entries, then the fields of the lines
        assigned in order. */
    constructor (lines: seq<Bytes>, initial: seq<Entry<string>>)
      requires Distinct(initial)
      ensures items == AssignAll(initial, Fields(lines)) && Valid()
    {
      var m := initial;
      var i := 0;
      while i < |lines|
        invariant 0 <= i <= |lines|
        invariant m == AssignAll(initial, Fields(lines[..i])) && Distinct(m)
      {
        var f := Field(lines[i]);
        assert Fields(lines[..i + 1])[..i] == Fields(lines[..i]);
        AssignDistinct(m, f.key, f.value);
        m := Assign(m, f.key, f.value);
        i := i + 1;
      }
      assert lines[..i] == lines;
      items := m;
    }

    /** `copy(headers)`: an independent dictionary with the same entries. */
    constructor Copy(other: Headers)
      requires other.Valid()
      ensures items == other.items && Valid()
    {
      items := other.items;
    }

    /** `headers[key] = value` */
    method Set(key: string, value: string)
      requires Valid()
      modifies this
      ensures items == Assign(old(items), key, value) && Valid()
    {
      AssignDistinct(items, key, value);
      items := Assign(items, key, value);
    }

    /** `bytes(headers)`: removes the start line from the dictionary (a `KeyError` when
        there is none, leaving the dictionary as it was) and serializes it in front of the
        remaining fields. */
    method ToBytes() returns (r: Result<Bytes>)
      requires Valid()
      modifies this
      ensures Valid() && Lookup(items, General).None?
      ensures Lookup(old(items), General).None? ==>
                r == Err(KeyError(General)) && items == old(items)
      ensures Lookup(old(items), General).Some? ==>
                items == Remove(old(items), General)
                && r == Ok(Encode(Serialize(Lookup(old(items), General).value, items)))
    {
      var g := Lookup(items, General);
      if g.None? {
        return Err(KeyError(General));
      }
      RemoveDistinct(items, General);
      RemoveLookup(items, General, General);
      items := Remove(items, General);
      r := Ok(Encode(Serialize(g.value, items)));
    }

    /** `Headers.from_rfile(rfile)`: reads lines until end of stream or an empty line. */
    static method FromReader(rfile: Reader) returns (h: Headers)
      modifies rfile
      ensures fresh(h) && h.Valid()
      ensures h.items == FromList(Fields(ReadBlock(old(rfile.rest)).lines))
      ensures rfile.rest == ReadBlock(old(rfile.rest)).rest
    {
      var lines: seq<Bytes> := [];
      while true
        invariant ReadBlock(old(rfile.rest)) ==
                  Block(lines + ReadBlock(rfile.rest).lines, ReadBlock(rfile.rest).rest)
        decreases |rfile.rest|
      {
        ghost var before := rfile.rest;
        var received := rfile.ReadLine();
        if received == [] || received == CRLF {
          break;
        }
        assert ReadBlock(before).lines == [received] + ReadBlock(rfile.rest).lines;
        lines := lines + [received];
      }
      assert ReadBlock(old(rfile.rest)).lines == lines;
      h := new Headers(lines, []);
    }
  }
}
