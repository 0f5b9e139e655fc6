/** The line rewriter behind the proxy's HTML changes: the document as a list of lines and,
    per line, how far earlier edits have moved the text of that line (its drift). Spans
    arrive in the coordinates of the original document; each one is shifted by its line's
    drift, spliced into the live line, and the drift grows by the change in length. On top
    of it sit the two callbacks the parser drives: one rewrites links to the upstream site,
    one marks every six-letter word. */
module Rewriter {
  import opened Common
  import opened PyStr
  import opened OrderedMap
  import opened Settings
  import opened HtmlParser

  /** `_html_data` and `_html_offsets`. */
  datatype Doc = Doc(lines: seq<string>, offsets: map<int, int>)

  /** The state after an operation, and whether it raised. Python keeps whatever the
      operation changed before raising. */
  datatype Outcome = Outcome(doc: Doc, result: Result<()>)

  /** `_html_offsets.get(index, 0)` */
  function Drift(offsets: map<int, int>, index: int): int
  {
    if index in offsets then offsets[index] else 0
  }

  /** The drift map after `calculate_offset`: with an end column given, the line's drift
      grows by the replacement's length minus the length of the span it replaces. */
  function NewOffsets(offsets: map<int, int>, lineLength: int, index: int, start: int, end: int)
    : (m: map<int, int>)
    ensures forall j :: j != index ==> Drift(m, j) == Drift(offsets, j)
    ensures end != 0 ==> Drift(m, index) == Drift(offsets, index) + lineLength - (end - start)
    ensures end == 0 ==> m == offsets
  {
    var delta := lineLength - (end - start);
    if end != 0 && delta != 0 then offsets[index := Drift(offsets, index) + delta] else offsets
  }

  /** The columns `calculate_offset` returns: both shifted by the drift when an end column
      is given; otherwise the start shifted and the end at the current length of the line,
      an `IndexError` when there is no such line. */
  function ShiftedSpan(d: Doc, index: int, start: int, end: int): (r: Result<(int, int)>)
    ensures end != 0 ==> r == Ok((start + Drift(d.offsets, index), end + Drift(d.offsets, index)))
    ensures end == 0 ==> (r.Ok? <==> ListIndex(index, |d.lines|).Some?)
    ensures end == 0 && r.Ok? ==>
              r.value == (start + Drift(d.offsets, index), |d.lines[ListIndex(index, |d.lines|).value]|)
  {
    var drift := Drift(d.offsets, index);
    if end != 0 then Ok((start + drift, end + drift))
    else
      match ListIndex(index, |d.lines|)
      case None => Err(IndexError)
      case Some(k) => Ok((start + drift, |d.lines[k]|))
  }

  /** `line[:s] + text + line[e:]` */
  function Splice(line: string, s: int, e: int, text: string): string
  {
    line[..SliceIndex(s, |line|)] + text + line[SliceIndex(e, |line|)..]
  }

  /** `replace_line(text, lineno, start_pos, end_pos)`. The drift map is updated before the
      line is looked up, so a missing line still leaves its drift changed. */
  function SpliceLine(d: Doc, text: string, lineno: int, start: int, end: int): Outcome
  {
    var index := lineno - 1;
    var offsets := NewOffsets(d.offsets, |text|, index, start, end);
    match ShiftedSpan(d, index, start, end)
    case Err(err) => Outcome(d.(offsets := offsets), Err(err))
    case Ok((s, e)) =>
      match ListIndex(index, |d.lines|)
      case None => Outcome(d.(offsets := offsets), Err(IndexError))
      case Some(k) => Outcome(Doc(d.lines[k := Splice(d.lines[k], s, e, text)], offsets), Ok(()))
  }

  /** `replace_line` keeps the number of lines and every line but its own, and fails
      exactly when the line does not exist. */
  lemma SpliceLineFrame(d: Doc, text: string, lineno: int, start: int, end: int)
    ensures var o := SpliceLine(d, text, lineno, start, end);
            var k := ListIndex(lineno - 1, |d.lines|);
            && |o.doc.lines| == |d.lines|
            && (forall j :: 0 <= j < |d.lines| && k != Some(j) ==> o.doc.lines[j] == d.lines[j])
            && o.doc.offsets == NewOffsets(d.offsets, |text|, lineno - 1, start, end)
            && (o.result.Ok? <==> k.Some?)
            && (o.result.Err? ==> o.result.error == IndexError)
  {
  }

  /** On a line no earlier edit has moved, `replace_line` with an end column puts the
      text in place of the span, and the line's drift becomes the change in length. */
  lemma SpliceFreshLine(d: Doc, text: string, lineno: int, start: int, end: int)
    requires 1 <= lineno <= |d.lines| && Drift(d.offsets, lineno - 1) == 0
    requires 0 <= start <= end <= |d.lines[lineno - 1]| && end != 0
    ensures var o := SpliceLine(d, text, lineno, start, end);
            var line := d.lines[lineno - 1];
            && o.result == Ok(())
            && o.doc.lines == d.lines[lineno - 1 := line[..start] + text + line[end..]]
            && Drift(o.doc.offsets, lineno - 1) == |text| - (end - start)
  {
  }

  /** One replacement within a line, in the coordinates of the original line. */
  datatype Edit = Edit(start: int, end: int, text: string)

  /** Edits in increasing order over disjoint spans of `orig`, all after `from`, each with
      an end column given. */
  predicate Ordered(orig: string, edits: seq<Edit>, from: nat)
    decreases |edits|
  {
    edits == [] ||
    (&& from <= edits[0].start <= edits[0].end <= |orig|
     && edits[0].end != 0
     && Ordered(orig, edits[1..], edits[0].end))
  }

  /** The text of `orig` from `from` on with every edit spliced in. */
  function SpliceAll(orig: string, edits: seq<Edit>, from: nat): string
    requires from <= |orig| && Ordered(orig, edits, from)
    decreases |edits|
  {
    if edits == [] then orig[from..]
    else orig[from..edits[0].start] + edits[0].text + SpliceAll(orig, edits[1..], edits[0].end)
  }

  /** `replace_line` called with each edit in turn on the same line, stopping at the
      first failure. */
  function SpliceEach(d: Doc, lineno: int, edits: seq<Edit>): Outcome
    decreases |edits|
  {
    if edits == [] then Outcome(d, Ok(()))
    else
      var o := SpliceLine(d, edits[0].text, lineno, edits[0].start, edits[0].end);
      if o.result.Err? then o else SpliceEach(o.doc, lineno, edits[1..])
  }

  /** Successive replacements on one line, given in original coordinates, in increasing
      order and over disjoint spans, give the line with all of them spliced into the
      original: each shift by the drift lands on the span the edit meant. The invariant:
      the live line is the already rewritten `prefix` followed by the untouched original
      from `from` on, and the drift is how much longer `prefix` is than `orig[..from]`. */
  lemma {:induction false} SpliceEachOrdered(d: Doc, lineno: int, orig: string, prefix: string,
                                             from: nat, edits: seq<Edit>)
    requires 1 <= lineno <= |d.lines| && from <= |orig| && Ordered(orig, edits, from)
    requires d.lines[lineno - 1] == prefix + orig[from..]
    requires Drift(d.offsets, lineno - 1) == |prefix| - from
    ensures SpliceEach(d, lineno, edits).result == Ok(())
    ensures SpliceEach(d, lineno, edits).doc.lines
            == d.lines[lineno - 1 := prefix + SpliceAll(orig, edits, from)]
    decreases |edits|
  {
    if edits != [] {
      var e := edits[0];
      var o := SpliceLine(d, e.text, lineno, e.start, e.end);
      var prefix' := prefix + orig[from..e.start] + e.text;
      SpliceStep(d, lineno, orig, prefix, from, e);
      SpliceEachOrdered(o.doc, lineno, orig, prefix', e.end, edits[1..]);
      var rest := SpliceAll(orig, edits[1..], e.end);
      assert prefix' + rest == prefix + SpliceAll(orig, edits, from) by {
        AppendAssoc(prefix, orig[from..e.start] + e.text, rest);
        AppendAssoc(prefix, orig[from..e.start], e.text);
      }
    }
  }

  /** One edit of the above. */
  lemma SpliceStep(d: Doc, lineno: int, orig: string, prefix: string, from: nat, e: Edit)
    requires 1 <= lineno <= |d.lines| && from <= e.start <= e.end <= |orig| && e.end != 0
    requires d.lines[lineno - 1] == prefix + orig[from..]
    requires Drift(d.offsets, lineno - 1) == |prefix| - from
    ensures var o := SpliceLine(d, e.text, lineno, e.start, e.end);
            var prefix' := prefix + orig[from..e.start] + e.text;
            && o.result == Ok(())
            && o.doc.lines == d.lines[lineno - 1 := prefix' + orig[e.end..]]
            && Drift(o.doc.offsets, lineno - 1) == |prefix'| - e.end
  {
    SpliceOne(d.lines[lineno - 1], orig, prefix, from, e);
  }

  /** One step of the above, on the line alone. */
  lemma SpliceOne(line: string, orig: string, prefix: string, from: nat, e: Edit)
    requires from <= e.start <= e.end <= |orig| && line == prefix + orig[from..]
    ensures var drift := |prefix| - from;
            Splice(line, e.start + drift, e.end + drift, e.text)
            == prefix + orig[from..e.start] + e.text + orig[e.end..]
  {
    var drift := |prefix| - from;
    assert SliceIndex(e.start + drift, |line|) == |prefix| + (e.start - from);
    assert SliceIndex(e.end + drift, |line|) == |prefix| + (e.end - from);
    assert line[..|prefix| + (e.start - from)] == prefix + orig[from..e.start];
    assert line[|prefix| + (e.end - from)..] == orig[e.end..];
  }

  /** A fresh line takes both edits of the example: "abcdefg" with columns 2 to 4 replaced
      by "XY" and then columns 5 to 6 by "Z" reads "abXYeZg". */
  lemma TwoEditsExample(d: Doc, edits: seq<Edit>)
    requires d.lines == ["abcdefg"] && d.offsets == map[]
    requires edits == [Edit(2, 4, "XY"), Edit(5, 6, "Z")]
    ensures var o := SpliceEach(d, 1, edits);
            o.result == Ok(()) && o.doc.lines == ["abXYeZg"]
  {
    var orig := d.lines[0];
    TwoEditsText(orig, edits);
    assert orig == [] + orig[0..];
    SpliceEachOrdered(d, 1, orig, [], 0, edits);
    SingleLine(d.lines, [] + SpliceAll(orig, edits, 0), "abXYeZg");
  }

  lemma TwoEditsText(orig: string, edits: seq<Edit>)
    requires orig == "abcdefg" && edits == [Edit(2, 4, "XY"), Edit(5, 6, "Z")]
    ensures Ordered(orig, edits, 0) && SpliceAll(orig, edits, 0) == "abXYeZg"
  {
    var rest := edits[1..];
    assert rest == [Edit(5, 6, "Z")] && rest[1..] == [];
    assert SpliceAll(orig, rest, 4) == "e" + "Z" + "g" by {
      assert SpliceAll(orig, rest, 4) == orig[4..5] + "Z" + orig[6..];
    }
    assert SpliceAll(orig, edits, 0) == orig[0..2] + "XY" + SpliceAll(orig, rest, 4);
  }

  lemma SingleLine(lines: seq<string>, x: string, y: string)
    requires |lines| == 1 && x == y
    ensures lines[0 := x] == [y]
  {
  }

  /** `replace_lines(items, *span)` from the `i`-th item on: item `i` goes to line
      `startLine + i`, in ascending order. The first line is replaced from the start column
      to its end, the line equal to the end line from column 0 to the end column (to its
      end when that column is 0), and every other line from column 0 to its end. */
  function SpliceLines(d: Doc, items: seq<string>, span: Span, i: nat): Outcome
    requires i <= |items|
    decreases |items| - i
  {
    if i == |items| then Outcome(d, Ok(()))
    else
      var lineno := span.startLine + i;
      var o :=
        if lineno == span.startLine then SpliceLine(d, items[i], lineno, span.startCol, 0)
        else if lineno == span.endLine then SpliceLine(d, items[i], lineno, 0, span.endCol)
        else SpliceLine(d, items[i], lineno, 0, 0);
      if o.result.Err? then o else SpliceLines(o.doc, items, span, i + 1)
  }

  /** What `replace_line` writes into `line`: the text between the start column shifted
      by the drift and the end column shifted by the drift, or the end of the line when
      the end column is 0. */
  function Spliced(line: string, drift: int, start: int, end: int, text: string): string
  {
    line[..SliceIndex(start + drift, |line|)] + text
    + (if end != 0 then line[SliceIndex(end + drift, |line|)..] else [])
  }

  /** The columns `replace_lines` passes with item `i`: the start column for the first
      item, the end column for the item on the end line, and 0 otherwise. */
  function ItemStart(span: Span, i: int): int { if i == 0 then span.startCol else 0 }
  function ItemEnd(span: Span, i: int): int
  {
    if i != 0 && span.startLine + i == span.endLine then span.endCol else 0
  }

  /** What `replace_lines` leaves at index `j` of a document `d` whose lines all exist:
      the lines it does not reach are as they were, each other line has its item spliced
      in with the item's columns and the line's drift. */
  function Placed(d: Doc, items: seq<string>, span: Span, j: int): string
    requires 0 <= j < |d.lines|
  {
    var i := j - (span.startLine - 1);
    if !(0 <= i < |items|) then d.lines[j]
    else Spliced(d.lines[j], Drift(d.offsets, j), ItemStart(span, i), ItemEnd(span, i), items[i])
  }

  /** After the first `i` items: those lines are placed, the rest untouched, and the drift
      of every line still to come is as it was. */
  predicate PlacedUpTo(d0: Doc, d: Doc, items: seq<string>, span: Span, i: nat)
  {
    && |d.lines| == |d0.lines|
    && (forall j :: 0 <= j < |d.lines| ==>
          d.lines[j] == if span.startLine - 1 <= j < span.startLine - 1 + i then Placed(d0, items, span, j)
                        else d0.lines[j])
    && (forall j :: span.startLine - 1 + i <= j < span.startLine - 1 + |items| ==>
          Drift(d.offsets, j) == Drift(d0.offsets, j))
  }

  /** When every line `replace_lines` reaches exists, it succeeds and leaves each line as
      `Placed` says. */
  lemma SpliceLinesShape(d: Doc, items: seq<string>, span: Span)
    requires 1 <= span.startLine && span.startLine - 1 + |items| <= |d.lines|
    ensures var o := SpliceLines(d, items, span, 0);
            && o.result == Ok(())
            && |o.doc.lines| == |d.lines|
            && forall j :: 0 <= j < |d.lines| ==> o.doc.lines[j] == Placed(d, items, span, j)
  {
    SpliceLinesFrom(d, d, items, span, 0);
  }

  lemma {:induction false} SpliceLinesFrom(d0: Doc, d: Doc, items: seq<string>, span: Span, i: nat)
    requires 1 <= span.startLine && span.startLine - 1 + |items| <= |d0.lines| && i <= |items|
    requires PlacedUpTo(d0, d, items, span, i)
    ensures var o := SpliceLines(d, items, span, i);
            o.result == Ok(()) && PlacedUpTo(d0, o.doc, items, span, |items|)
    decreases |items| - i
  {
    if i < |items| {
      var o := PlaceStep(d0, d, items, span, i);
      SpliceLinesUnfold(d, items, span, i);
      SpliceLinesFrom(d0, o.doc, items, span, i + 1);
    }
  }

  /** One item of `replace_lines`. */
  lemma PlaceStep(d0: Doc, d: Doc, items: seq<string>, span: Span, i: nat) returns (o: Outcome)
    requires 1 <= span.startLine && span.startLine - 1 + |items| <= |d0.lines| && i < |items|
    requires PlacedUpTo(d0, d, items, span, i)
    ensures o == SpliceLine(d, items[i], span.startLine + i, ItemStart(span, i), ItemEnd(span, i))
    ensures o.result == Ok(()) && PlacedUpTo(d0, o.doc, items, span, i + 1)
  {
    var lineno := span.startLine + i;
    o := SpliceLine(d, items[i], lineno, ItemStart(span, i), ItemEnd(span, i));
    SpliceAtLine(d, items[i], lineno, ItemStart(span, i), ItemEnd(span, i));
    PlacedExtend(d0, d, items, span, i, o.doc);
  }

  /** Item `i` of `replace_lines` is spliced with the item's columns. */
  lemma SpliceLinesUnfold(d: Doc, items: seq<string>, span: Span, i: nat)
    requires i < |items|
    ensures var o := SpliceLine(d, items[i], span.startLine + i, ItemStart(span, i), ItemEnd(span, i));
            SpliceLines(d, items, span, i) == if o.result.Err? then o else SpliceLines(o.doc, items, span, i + 1)
  {
  }

  /** The line `replace_line` writes, when it exists. */
  lemma SpliceAtLine(d: Doc, text: string, lineno: int, start: int, end: int)
    requires 1 <= lineno <= |d.lines|
    ensures var o := SpliceLine(d, text, lineno, start, end);
            && o.result == Ok(())
            && |o.doc.lines| == |d.lines|
            && o.doc.lines[lineno - 1] == Spliced(d.lines[lineno - 1], Drift(d.offsets, lineno - 1), start, end, text)
            && (forall j :: 0 <= j < |d.lines| && j != lineno - 1 ==> o.doc.lines[j] == d.lines[j])
            && (forall j :: j != lineno - 1 ==> Drift(o.doc.offsets, j) == Drift(d.offsets, j))
  {
    var line := d.lines[lineno - 1];
    assert line[|line|..] == [];
  }

  /** Extending `PlacedUpTo` by the line of item `i`. */
  lemma PlacedExtend(d0: Doc, d: Doc, items: seq<string>, span: Span, i: nat, d': Doc)
    requires 1 <= span.startLine && span.startLine - 1 + |items| <= |d0.lines| && i < |items|
    requires PlacedUpTo(d0, d, items, span, i)
    requires var x := span.startLine - 1 + i;
             && |d'.lines| == |d.lines|
             && d'.lines[x] == Spliced(d.lines[x], Drift(d.offsets, x), ItemStart(span, i), ItemEnd(span, i), items[i])
             && (forall j :: 0 <= j < |d.lines| && j != x ==> d'.lines[j] == d.lines[j])
             && (forall j :: j != x ==> Drift(d'.offsets, j) == Drift(d.offsets, j))
    ensures PlacedUpTo(d0, d', items, span, i + 1)
  {
    var x := span.startLine - 1 + i;
    assert d.lines[x] == d0.lines[x] && Drift(d.offsets, x) == Drift(d0.offsets, x);
    forall j | 0 <= j < |d'.lines|
      ensures d'.lines[j] == if span.startLine - 1 <= j < span.startLine + i then Placed(d0, items, span, j)
                             else d0.lines[j]
    {
      if j != x {
        assert d'.lines[j] == d.lines[j];
      }
    }
  }

  /** On lines no earlier edit has moved, the first line keeps its text before the start
      column and ends with the first item, every later line is its item, followed on the
      end line by its text after the end column, and no other line changes. */
  lemma SpliceFreshLines(d: Doc, items: seq<string>, span: Span)
    requires 1 <= span.startLine && span.startLine - 1 + |items| <= |d.lines| && items != []
    requires forall j :: span.startLine - 1 <= j < span.startLine - 1 + |items| ==> Drift(d.offsets, j) == 0
    ensures var o := SpliceLines(d, items, span, 0);
            var first := d.lines[span.startLine - 1];
            && o.result == Ok(())
            && |o.doc.lines| == |d.lines|
            && o.doc.lines[span.startLine - 1] == first[..SliceIndex(span.startCol, |first|)] + items[0]
            && (forall i :: 0 < i < |items| ==>
                  var line := d.lines[span.startLine - 1 + i];
                  o.doc.lines[span.startLine - 1 + i]
                  == items[i] + (if span.startLine + i == span.endLine && span.endCol != 0
                                 then line[SliceIndex(span.endCol, |line|)..] else []))
            && (forall j :: 0 <= j < |d.lines| && !(span.startLine - 1 <= j < span.startLine - 1 + |items|) ==>
                  o.doc.lines[j] == d.lines[j])
  {
    SpliceLinesShape(d, items, span);
    FreshPlaced(d, items, span, SpliceLines(d, items, span, 0).doc.lines);
  }

  /** `Placed` over lines with no drift, for any lines that are placed. */
  lemma FreshPlaced(d: Doc, items: seq<string>, span: Span, lines: seq<string>)
    requires 1 <= span.startLine && span.startLine - 1 + |items| <= |d.lines| && items != []
    requires forall j :: span.startLine - 1 <= j < span.startLine - 1 + |items| ==> Drift(d.offsets, j) == 0
    requires |lines| == |d.lines| && forall j :: 0 <= j < |d.lines| ==> lines[j] == Placed(d, items, span, j)
    ensures var first := d.lines[span.startLine - 1];
            lines[span.startLine - 1] == first[..SliceIndex(span.startCol, |first|)] + items[0]
    ensures forall i :: 0 < i < |items| ==>
              var line := d.lines[span.startLine - 1 + i];
              lines[span.startLine - 1 + i]
              == items[i] + (if span.startLine + i == span.endLine && span.endCol != 0
                             then line[SliceIndex(span.endCol, |line|)..] else [])
  {
    PlacedFresh(d, items, span, 0);
    forall i | 0 < i < |items|
      ensures var line := d.lines[span.startLine - 1 + i];
              lines[span.startLine - 1 + i]
              == items[i] + (if span.startLine + i == span.endLine && span.endCol != 0
                             then line[SliceIndex(span.endCol, |line|)..] else [])
    {
      PlacedFresh(d, items, span, i);
    }
  }

  /** `Placed` on a line with no drift. */
  lemma PlacedFresh(d: Doc, items: seq<string>, span: Span, i: nat)
    requires 1 <= span.startLine && span.startLine - 1 + i < |d.lines| && i < |items|
    requires Drift(d.offsets, span.startLine - 1 + i) == 0
    ensures var line := d.lines[span.startLine - 1 + i];
            Placed(d, items, span, span.startLine - 1 + i)
            == if i == 0 then line[..SliceIndex(span.startCol, |line|)] + items[0]
               else items[i] + (if span.startLine + i == span.endLine && span.endCol != 0
                                then line[SliceIndex(span.endCol, |line|)..] else [])
  {
    var line := d.lines[span.startLine - 1 + i];
    assert line[..0] == [];
    assert line[..SliceIndex(span.startCol, |line|)] + items[0] + [] == line[..SliceIndex(span.startCol, |line|)] + items[0];
  }

  /** When the first line does not exist, `replace_lines` raises `IndexError` before
      changing anything. */
  lemma SpliceLinesMissing(d: Doc, items: seq<string>, span: Span)
    requires items != [] && ListIndex(span.startLine - 1, |d.lines|).None?
    ensures SpliceLines(d, items, span, 0) == Outcome(d, Err(IndexError))
  {
  }

  /** The attribute pairs as dictionary entries; a bare attribute has the value `None`. */
  function AttrEntries(attrs: seq<Attr>): (es: seq<Entry<Option<string>>>)
    ensures |es| == |attrs|
    ensures forall i :: 0 <= i < |attrs| ==> es[i] == Entry(attrs[i].name, attrs[i].value)
  {
    if attrs == [] then [] else [Entry(attrs[0].name, attrs[0].value)] + AttrEntries(attrs[1..])
  }

  /** `'{}="{}"'.format(k, v)`, where a missing value prints as `None`. */
  function Quote(e: Entry<Option<string>>): string
  {
    e.key + "=\"" + (match e.value case None => "None" case Some(v) => v) + "\""
  }

  function QuoteAll(m: seq<Entry<Option<string>>>): (qs: seq<string>)
    ensures |qs| == |m| && forall i :: 0 <= i < |m| ==> qs[i] == Quote(m[i])
  {
    if m == [] then [] else [Quote(m[0])] + QuoteAll(m[1..])
  }

  /** `dict(attrs)` with `href` rewritten to point at the proxy. */
  function Rewritten(attrs: seq<Attr>, href: string): seq<Entry<Option<string>>>
  {
    Assign(FromList(AttrEntries(attrs)), "href", Some(Replace(href, TargetLink, LocalLink)))
  }

  /** The tag `fix_link` writes, `None` when it writes nothing, and the `TypeError` of
      testing for the upstream link in a bare `href`. */
  function FixedLink(attrs: seq<Attr>): Result<Option<string>>
  {
    var found: Option<Option<string>> := Lookup(FromList(AttrEntries(attrs)), "href");
    if found.None? then Ok(None)
    else if found.value.None? then Err(TypeError)
    else
      var href := found.value.value;
      if !Contains(href, TargetLink) then Ok(None)
      else Ok(Some("<a " + Join(QuoteAll(Rewritten(attrs, href)), " ") + ">"))
  }

  /** `fix_link` writes a tag exactly when the last `href` has a value that contains the
      upstream link, and raises exactly when the last `href` is bare. */
  lemma FixedLinkCases(attrs: seq<Attr>)
    ensures var last := LastValue(AttrEntries(attrs), "href");
            && (FixedLink(attrs).Err? <==> last == Some(None))
            && (FixedLink(attrs).Err? ==> FixedLink(attrs).error == TypeError)
            && (FixedLink(attrs) == Ok(None) <==>
                  last.None? || (last.value.Some? && !Contains(last.value.value, TargetLink)))
  {
    FromListLookup(AttrEntries(attrs), "href");
  }

  /** The written tag lists every attribute once, in order of first appearance, with the
      value of its last appearance, except that `href` has every upstream link replaced
      by the local one, so that none remains. */
  lemma RewrittenAttrs(attrs: seq<Attr>, href: string)
    requires LastValue(AttrEntries(attrs), "href") == Some(Some(href))
    ensures Keys(Rewritten(attrs, href)) == Dedup(Keys(AttrEntries(attrs)))
    ensures forall k :: k != "href" ==>
              Lookup(Rewritten(attrs, href), k) == LastValue(AttrEntries(attrs), k)
    ensures Lookup(Rewritten(attrs, href), "href") == Some(Some(Replace(href, TargetLink, LocalLink)))
    ensures !Contains(Replace(href, TargetLink, LocalLink), TargetLink)
  {
    var es := AttrEntries(attrs);
    var m := FromList(es);
    FromListLookup(es, "href");
    FromListKeys(es);
    var r := Rewritten(attrs, href);
    AssignKeys(m, "href", Some(Replace(href, TargetLink, LocalLink)));
    forall k ensures Lookup(r, k) == if k == "href" then Some(Some(Replace(href, TargetLink, LocalLink))) else LastValue(es, k) {
      AssignLookup(m, "href", Some(Replace(href, TargetLink, LocalLink)), k);
      FromListLookup(es, k);
    }
    LinksDoNotOverlap();
    ReplaceRemovesAll(href, TargetLink, LocalLink);
  }

  /** `[''] * n` */
  function Blanks(n: int): (r: seq<string>)
    ensures |r| == if n < 0 then 0 else n
    ensures forall i :: 0 <= i < |r| ==> r[i] == []
    decreases n
  {
    if n <= 0 then [] else Blanks(n - 1) + [[]]
  }

  /** `fix_link(attrs, *span)`: the tag replaces the span on one line; over several lines
      it goes on the first and the later lines become empty. */
  function LinkFixed(d: Doc, attrs: seq<Attr>, span: Span): Outcome
  {
    match FixedLink(attrs)
    case Err(err) => Outcome(d, Err(err))
    case Ok(None) => Outcome(d, Ok(()))
    case Ok(Some(link)) =>
      if span.startLine != span.endLine then
        SpliceLines(d, [link] + Blanks(span.endLine - span.startLine), span, 0)
      else SpliceLine(d, link, span.startLine, span.startCol, span.endCol)
  }

  /** A link over several fresh lines: the first keeps its text before the start column
      and ends with the tag, the lines after it up to the end line are emptied except for
      the end line's text after the end column, and no other line changes. */
  lemma LinkOverLines(d: Doc, attrs: seq<Attr>, span: Span, link: string)
    requires FixedLink(attrs) == Ok(Some(link))
    requires 1 <= span.startLine < span.endLine <= |d.lines|
    requires forall j :: span.startLine - 1 <= j < span.endLine ==> Drift(d.offsets, j) == 0
    ensures var o := LinkFixed(d, attrs, span);
            var first := d.lines[span.startLine - 1];
            var last := d.lines[span.endLine - 1];
            && o.result == Ok(())
            && |o.doc.lines| == |d.lines|
            && o.doc.lines[span.startLine - 1] == first[..SliceIndex(span.startCol, |first|)] + link
            && (forall j :: span.startLine - 1 < j < span.endLine - 1 ==> o.doc.lines[j] == [])
            && o.doc.lines[span.endLine - 1]
               == (if span.endCol == 0 then [] else last[SliceIndex(span.endCol, |last|)..])
            && (forall j :: 0 <= j < |d.lines| && !(span.startLine - 1 <= j < span.endLine) ==>
                  o.doc.lines[j] == d.lines[j])
  {
    var items := [link] + Blanks(span.endLine - span.startLine);
    SpliceFreshLines(d, items, span);
    assert LinkFixed(d, attrs, span) == SpliceLines(d, items, span, 0);
    BlankedLines(d, items, span, link, SpliceLines(d, items, span, 0).doc.lines);
  }

  /** The tag followed by blanks, placed on fresh lines. */
  lemma BlankedLines(d: Doc, items: seq<string>, span: Span, link: string, lines: seq<string>)
    requires 1 <= span.startLine < span.endLine <= |d.lines|
    requires items == [link] + Blanks(span.endLine - span.startLine)
    requires |lines| == |d.lines|
    requires forall i :: 0 < i < |items| ==>
               var line := d.lines[span.startLine - 1 + i];
               lines[span.startLine - 1 + i]
               == items[i] + (if span.startLine + i == span.endLine && span.endCol != 0
                              then line[SliceIndex(span.endCol, |line|)..] else [])
    ensures forall j :: span.startLine - 1 < j < span.endLine - 1 ==> lines[j] == []
    ensures var last := d.lines[span.endLine - 1];
            lines[span.endLine - 1] == (if span.endCol == 0 then [] else last[SliceIndex(span.endCol, |last|)..])
  {
    forall j | span.startLine - 1 < j < span.endLine - 1 ensures lines[j] == [] {
      var i := j - (span.startLine - 1);
      assert items[i] == [];
    }
    var i := span.endLine - span.startLine;
    assert items[i] == [];
  }

  /** Attributes without an `href` that has the upstream link leave the document as it
      was. */
  lemma LinkUntouched(d: Doc, attrs: seq<Attr>, span: Span)
    requires FixedLink(attrs) == Ok(None)
    ensures LinkFixed(d, attrs, span) == Outcome(d, Ok(()))
  {
  }

  /** The mark put after every six-letter word. */
  const Mark: char := '\U{2122}'

  /** Word characters of the regular expression: ASCII letters, digits and `_`, and the
      Russian alphabet. */
  predicate IsWordChar(c: char)
  {
    || ('a' <= c <= 'z') || ('A' <= c <= 'Z') || ('0' <= c <= '9') || c == '_'
    || ('\U{0410}' <= c <= '\U{044F}') || c == '\U{0401}' || c == '\U{0451}'
  }

  /** The length of the run of word characters at the front of `s`. */
  function RunLen(s: string): (k: nat)
    ensures k <= |s| && (k < |s| ==> !IsWordChar(s[k]))
  {
    if s == [] || !IsWordChar(s[0]) then 0 else 1 + RunLen(s[1..])
  }

  lemma {:induction false} RunLenWords(s: string)
    ensures forall j :: 0 <= j < RunLen(s) ==> IsWordChar(s[j])
  {
    if s != [] && IsWordChar(s[0]) {
      RunLenWords(s[1..]);
      forall j | 0 < j < RunLen(s) ensures IsWordChar(s[j]) {
        assert s[j] == s[1..][j - 1];
      }
    }
  }

  /** A run of word characters followed by the end or by another character is a run of
      exactly that length. */
  lemma {:induction false} RunLenOf(a: string, b: string)
    requires forall j :: 0 <= j < |a| ==> IsWordChar(a[j])
    requires b == [] || !IsWordChar(b[0])
    ensures RunLen(a + b) == |a|
    decreases |a|
  {
    if a != [] {
      assert (a + b)[1..] == a[1..] + b;
      RunLenOf(a[1..], b);
    } else {
      assert a + b == b;
    }
  }

  /** The result of `re.subn(r'(\b\w{6}\b)', r'\1' + mark, text)`. */
  datatype Wrapped = Wrapped(text: string, count: nat)

  /** The substitution: every maximal run of exactly six word characters gets the mark
      after it, and `count` says how many did. */
  function Wrap(s: string): (w: Wrapped)
    ensures |w.text| == |s| + w.count
    ensures s == [] || IsWordChar(s[0]) || (w.text != [] && w.text[0] == s[0])
    decreases |s|
  {
    if s == [] then Wrapped([], 0)
    else if !IsWordChar(s[0]) then
      var w := Wrap(s[1..]);
      Wrapped([s[0]] + w.text, w.count)
    else
      var k := RunLen(s);
      var w := Wrap(s[k..]);
      if k == 6 then Wrapped(s[..k] + [Mark] + w.text, w.count + 1)
      else Wrapped(s[..k] + w.text, w.count)
  }

  /** Removing the mark that directly follows each run of exactly six word characters. */
  function Unwrap(t: string): string
    decreases |t|
  {
    if t == [] then []
    else if !IsWordChar(t[0]) then [t[0]] + Unwrap(t[1..])
    else
      var k := RunLen(t);
      if k == 6 && k < |t| && t[k] == Mark then t[..k] + Unwrap(t[k + 1..])
      else t[..k] + Unwrap(t[k..])
  }

  /** The substitution only inserts marks: taking them out again gives back the text. */
  lemma {:induction false} UnwrapWrap(s: string)
    ensures Unwrap(Wrap(s).text) == s
    decreases |s|
  {
    if s != [] {
      if !IsWordChar(s[0]) {
        UnwrapWrap(s[1..]);
        UnwrapWrapSkip(s);
      } else {
        UnwrapWrap(s[RunLen(s)..]);
        UnwrapWrapRun(s);
      }
    }
  }

  lemma UnwrapWrapSkip(s: string)
    requires s != [] && !IsWordChar(s[0]) && Unwrap(Wrap(s[1..]).text) == s[1..]
    ensures Unwrap(Wrap(s).text) == s
  {
    UnwrapSkip(s[0], Wrap(s[1..]).text, Wrap(s).text);
    assert s == [s[0]] + s[1..];
  }

  lemma UnwrapWrapRun(s: string)
    requires s != [] && IsWordChar(s[0]) && Unwrap(Wrap(s[RunLen(s)..]).text) == s[RunLen(s)..]
    ensures Unwrap(Wrap(s).text) == s
  {
    var k := RunLen(s);
    UnwrapWrapStep(s);
    Rejoin(s, k, Unwrap(Wrap(s).text));
  }

  lemma Rejoin(s: string, k: nat, x: string)
    requires k <= |s| && x == s[..k] + s[k..]
    ensures x == s
  {
  }

  lemma UnwrapWrapStep(s: string)
    requires s != [] && IsWordChar(s[0])
    ensures Unwrap(Wrap(s).text) == s[..RunLen(s)] + Unwrap(Wrap(s[RunLen(s)..]).text)
  {
    var k := RunLen(s);
    RunLenWords(s);
    UnwrapRun(s[..k], Wrap(s[k..]).text, Wrap(s).text);
  }

  lemma UnwrapSkip(c: char, rest: string, t: string)
    requires !IsWordChar(c) && t == [c] + rest
    ensures Unwrap(t) == [c] + Unwrap(rest)
  {
    assert t[1..] == rest;
  }

  /** Taking the marks out of a run of word characters followed by the text after it. */
  lemma UnwrapRun(a: string, rest: string, t: string)
    requires a != [] && forall j :: 0 <= j < |a| ==> IsWordChar(a[j])
    requires rest == [] || !IsWordChar(rest[0])
    requires t == if |a| == 6 then a + [Mark] + rest else a + rest
    ensures Unwrap(t) == a + Unwrap(rest)
  {
    var k := |a|;
    var tail := if k == 6 then [Mark] + rest else rest;
    assert t == a + tail;
    RunLenOf(a, tail);
    assert t[..k] == a && t[k..] == tail;
    if k == 6 {
      assert t[k + 1..] == rest;
    }
  }

  /** Without a mark the text is unchanged. */
  lemma {:induction false} WrapUnmarked(s: string)
    ensures Wrap(s).count == 0 ==> Wrap(s).text == s
    decreases |s|
  {
    if s != [] {
      if !IsWordChar(s[0]) {
        WrapUnmarked(s[1..]);
      } else {
        var k := RunLen(s);
        WrapUnmarked(s[k..]);
        assert s == s[..k] + s[k..];
      }
    }
  }

  /** A maximal run of exactly six word characters starts at `i`. */
  predicate SixRunAt(s: string, i: int)
  {
    && 0 <= i && i + 6 <= |s|
    && (forall j :: i <= j < i + 6 ==> IsWordChar(s[j]))
    && (i == 0 || !IsWordChar(s[i - 1]))
    && (i + 6 == |s| || !IsWordChar(s[i + 6]))
  }

  /** The substitution marks something exactly when the text has a maximal run of six word
      characters. */
  lemma {:induction false} WrapCount(s: string)
    ensures Wrap(s).count > 0 <==> exists i :: SixRunAt(s, i)
    decreases |s|
  {
    if s != [] {
      if !IsWordChar(s[0]) {
        WrapCount(s[1..]);
        SixRunShift(s, 1);
      } else {
        var k := RunLen(s);
        RunLenWords(s);
        WrapCount(s[k..]);
        SixRunShift(s, k);
        if k == 6 {
          assert SixRunAt(s, 0);
        } else {
          assert !SixRunAt(s, 0);
        }
      }
    }
  }

  /** Past a run boundary, the six-runs of the rest are the six-runs of the whole, moved;
      none starts strictly inside the run. */
  lemma SixRunShift(s: string, k: nat)
    requires 0 < k <= |s| && forall j :: 0 <= j < k - 1 ==> IsWordChar(s[j])
    requires !IsWordChar(s[k - 1]) || k == |s| || !IsWordChar(s[k])
    ensures (exists i :: SixRunAt(s, i) && i > 0) <==> (exists i :: SixRunAt(s[k..], i))
  {
    forall i | SixRunAt(s, i) && i > 0 ensures SixRunAt(s[k..], i - k) {
    }
    forall i | SixRunAt(s[k..], i) ensures SixRunAt(s, i + k) {
      assert forall j :: i + k <= j < i + k + 6 ==> s[j] == s[k..][j - k];
    }
  }

  /** "banana" is marked, "bananas" is not. */
  lemma BananaExample(s: string, t: string)
    requires s == "banana" && t == "bananas"
    ensures Wrap(s) == Wrapped(s + [Mark], 1)
    ensures Wrap(t) == Wrapped(t, 0)
  {
    RunLenOf(s, []);
    assert s + [] == s && s[..6] == s && s[6..] == [];
    RunLenOf(t, []);
    assert t + [] == t && t[..7] == t && t[7..] == [];
  }

  /** `wrap_words(data, *span)`: nothing when no word was marked; over several lines the
      marked text's lines replace the span line by line; on one line the marked text
      replaces the span. */
  function WordsWrapped(d: Doc, data: string, span: Span): Outcome
  {
    var w := Wrap(data);
    if w.count == 0 then Outcome(d, Ok(()))
    else if span.startLine != span.endLine then SpliceLines(d, SplitLines(w.text), span, 0)
    else SpliceLine(d, w.text, span.startLine, span.startCol, span.endCol)
  }

  /** Text without a six-letter word leaves the document as it was. */
  lemma WordsUntouched(d: Doc, data: string, span: Span)
    requires forall i :: 0 <= i < |data| ==> !SixRunAt(data, i)
    ensures WordsWrapped(d, data, span) == Outcome(d, Ok(()))
  {
    WrapCount(data);
  }

  /** Text on one line, found at its span in a line no earlier edit has moved: the line
      gets the marked text in place of the span and its drift grows by the number of
      marks. */
  lemma WordsOnOneLine(d: Doc, data: string, span: Span)
    requires 1 <= span.startLine == span.endLine <= |d.lines|
    requires Drift(d.offsets, span.startLine - 1) == 0
    requires var line := d.lines[span.startLine - 1];
             0 <= span.startCol < span.endCol <= |line| && line[span.startCol..span.endCol] == data
    ensures var o := WordsWrapped(d, data, span);
            var line := d.lines[span.startLine - 1];
            && o.result == Ok(())
            && o.doc.lines == d.lines[span.startLine - 1 := line[..span.startCol] + Wrap(data).text + line[span.endCol..]]
            && Drift(o.doc.offsets, span.startLine - 1) == Wrap(data).count
  {
    var w := Wrap(data);
    var x := span.startLine - 1;
    var line := d.lines[x];
    if w.count == 0 {
      WrapUnmarked(data);
      SpliceSame(d.lines, x, span.startCol, span.endCol);
    } else {
      SpliceFreshLine(d, w.text, span.startLine, span.startCol, span.endCol);
    }
  }

  /** Putting a line's own span back in place changes nothing. */
  lemma SpliceSame(lines: seq<string>, x: nat, s: nat, e: nat)
    requires x < |lines| && s <= e <= |lines[x]|
    ensures lines[x := lines[x][..s] + lines[x][s..e] + lines[x][e..]] == lines
  {
    assert lines[x][..s] + lines[x][s..e] + lines[x][e..] == lines[x];
  }

  /** The callbacks the rewriter registers. */
  const Callbacks: set<string> := {"a", "data"}

  /** `callbacks[name](...)` for one recorded call: text goes to `wrap_words`, an `a` tag to
      `fix_link`, and a `data` tag hands its attribute list to `wrap_words`, which cannot
      take it (`TypeError`). A name that is not registered is a `KeyError`. */
  function Dispatch(d: Doc, c: Call): Outcome
  {
    match c
    case DataCall(data, span) => WordsWrapped(d, data, span)
    case TagCall(tag, attrs, span) =>
      if tag == "a" then LinkFixed(d, attrs, span)
      else if tag == "data" then Outcome(d, Err(TypeError))
      else Outcome(d, Err(KeyError(tag)))
  }

  /** The calls applied in order; the first exception ends it. */
  function ApplyAll(d: Doc, calls: seq<Call>): Outcome
    decreases |calls|
  {
    if calls == [] then Outcome(d, Ok(()))
    else
      var o := Dispatch(d, calls[0]);
      if o.result.Err? then o else ApplyAll(o.doc, calls[1..])
  }

  /** No callback adds or removes a line. */
  lemma {:induction false} ApplyAllLength(d: Doc, calls: seq<Call>)
    ensures |ApplyAll(d, calls).doc.lines| == |d.lines|
    decreases |calls|
  {
    if calls != [] {
      var o := Dispatch(d, calls[0]);
      assert |o.doc.lines| == |d.lines| by {
        match calls[0]
        case DataCall(data, span) =>
          if Wrap(data).count != 0 && span.startLine != span.endLine {
            SpliceLinesLength(d, SplitLines(Wrap(data).text), span, 0);
          }
        case TagCall(tag, attrs, span) =>
          if tag == "a" && FixedLink(attrs).Ok? && FixedLink(attrs).value.Some? && span.startLine != span.endLine {
            SpliceLinesLength(d, [FixedLink(attrs).value.value] + Blanks(span.endLine - span.startLine), span, 0);
          }
      }
      if o.result.Ok? {
        ApplyAllLength(o.doc, calls[1..]);
      }
    }
  }

  lemma {:induction false} SpliceLinesLength(d: Doc, items: seq<string>, span: Span, i: nat)
    requires i <= |items|
    ensures |SpliceLines(d, items, span, i).doc.lines| == |d.lines|
    decreases |items| - i
  {
    if i < |items| {
      var lineno := span.startLine + i;
      var o :=
        if lineno == span.startLine then SpliceLine(d, items[i], lineno, span.startCol, 0)
        else if lineno == span.endLine then SpliceLine(d, items[i], lineno, 0, span.endCol)
        else SpliceLine(d, items[i], lineno, 0, 0);
      if o.result.Ok? {
        SpliceLinesLength(o.doc, items, span, i + 1);
      }
    }
  }

  /** The outcome of `modify_data`: the rewritten lines and drift map, and the joined
      text or the exception. A callback's exception comes before a later failure of the
      parser's own. */
  datatype Rewrite = Rewrite(doc: Doc, result: Result<string>)

  /** `modify_data(data)` on a rewriter whose drift map is `offsets`, with `tokenize` the
      tokenizer's events. */
  function Modified(offsets: map<int, int>, data: string, tokenize: Tokenizer): Rewrite
  {
    var t := Run(data, Callbacks, Initial, tokenize(data));
    var o := ApplyAll(Doc(SplitLines(data), offsets), t.calls);
    if o.result.Err? then Rewrite(o.doc, Err(o.result.error))
    else if t.failure.Some? then Rewrite(o.doc, Err(t.failure.value))
    else Rewrite(o.doc, Ok(Join(o.doc.lines, "\n")))
  }

  /** A call that edits nothing: text without a six-letter word, or a link without the
      upstream address. */
  predicate Quiet(c: Call)
  {
    match c
    case DataCall(data, _) => forall i :: 0 <= i < |data| ==> !SixRunAt(data, i)
    case TagCall(tag, attrs, _) => tag == "a" && FixedLink(attrs) == Ok(None)
  }

  lemma {:induction false} ApplyQuiet(d: Doc, calls: seq<Call>)
    requires forall i :: 0 <= i < |calls| ==> Quiet(calls[i])
    ensures ApplyAll(d, calls) == Outcome(d, Ok(()))
    decreases |calls|
  {
    if calls != [] {
      match calls[0] {
        case DataCall(data, span) => WordsUntouched(d, data, span);
        case TagCall(tag, attrs, span) => LinkUntouched(d, attrs, span);
      }
      assert forall i :: 0 <= i < |calls[1..]| ==> Quiet(calls[1..][i]) by {
        assert forall i :: 0 <= i < |calls[1..]| ==> calls[1..][i] == calls[i + 1];
      }
      ApplyQuiet(d, calls[1..]);
    }
  }

  /** When no callback edits anything and the parser does not fail, the result is the
      document's `splitlines()` joined by line feeds. */
  lemma ModifyQuiet(offsets: map<int, int>, data: string, tokenize: Tokenizer)
    requires var t := Run(data, Callbacks, Initial, tokenize(data));
             t.failure.None? && forall i :: 0 <= i < |t.calls| ==> Quiet(t.calls[i])
    ensures Modified(offsets, data, tokenize) == Rewrite(Doc(SplitLines(data), offsets), Ok(Join(SplitLines(data), "\n")))
  {
    ApplyQuiet(Doc(SplitLines(data), offsets), Run(data, Callbacks, Initial, tokenize(data)).calls);
  }

  /** ... which is the document itself when its only line breaks are line feeds and it
      does not end in one. */
  lemma ModifyQuietIdentity(offsets: map<int, int>, data: string, tokenize: Tokenizer)
    requires var t := Run(data, Callbacks, Initial, tokenize(data));
             t.failure.None? && forall i :: 0 <= i < |t.calls| ==> Quiet(t.calls[i])
    requires OnlyLfBreaks(data) && (data == [] || data[|data| - 1] != '\n')
    ensures Modified(offsets, data, tokenize).result == Ok(data)
  {
    ModifyQuiet(offsets, data, tokenize);
    JoinSplitLines(data);
  }

  /** A successful rewrite has as many lines as the document. */
  lemma ModifyLength(offsets: map<int, int>, data: string, tokenize: Tokenizer)
    ensures |Modified(offsets, data, tokenize).doc.lines| == |SplitLines(data)|
  {
    var t := Run(data, Callbacks, Initial, tokenize(data));
    ApplyAllLength(Doc(SplitLines(data), offsets), t.calls);
  }

  /** `Modifier`: the document's lines (`_html_data`) and the drift per line index
      (`_html_offsets`). */
  class Modifier {
    var lines: seq<string>
    var offsets: map<int, int>

    function State(): Doc
      reads this
    {
      Doc(lines, offsets)
    }

    constructor ()
      ensures State() == Doc([], map[])
    {
      lines := [];
      offsets := map[];
    }

    /** `calculate_offset` */
    method CalculateOffset(lineLength: int, index: int, start: int, end: int)
      returns (r: Result<(int, int)>)
      modifies this
      ensures r == ShiftedSpan(old(State()), index, start, end)
      ensures lines == old(lines)
      ensures offsets == NewOffsets(old(offsets), lineLength, index, start, end)
    {
      var offset := Drift(offsets, index);
      var s := start + offset;
      if end != 0 {
        var e := end + offset;
        var delta := lineLength - (e - s);
        if delta != 0 {
          offsets := offsets[index := offset + delta];
        }
        r := Ok((s, e));
      } else {
        var k := ListIndex(index, |lines|);
        if k.None? {
          return Err(IndexError);
        }
        r := Ok((s, |lines[k.value]|));
      }
    }

    /** `replace_line` */
    method ReplaceLine(text: string, lineno: int, start: int, end: int) returns (r: Result<()>)
      modifies this
      ensures Outcome(State(), r) == SpliceLine(old(State()), text, lineno, start, end)
    {
      var index := lineno - 1;
      var span := CalculateOffset(|text|, index, start, end);
      if span.Err? {
        return Err(span.error);
      }
      var k := ListIndex(index, |lines|);
      if k.None? {
        return Err(IndexError);
      }
      var (s, e) := span.value;
      lines := lines[k.value := Splice(lines[k.value], s, e, text)];
      r := Ok(());
    }

    /** `replace_lines` */
    method ReplaceLines(items: seq<string>, startLine: int, startCol: int, endLine: int, endCol: int)
      returns (r: Result<()>)
      modifies this
      ensures Outcome(State(), r) == SpliceLines(old(State()), items, Span(startLine, startCol, endLine, endCol), 0)
    {
      var span := Span(startLine, startCol, endLine, endCol);
      var i := 0;
      while i < |items|
        invariant 0 <= i <= |items|
        invariant SpliceLines(State(), items, span, i) == SpliceLines(old(State()), items, span, 0)
      {
        var lineno := startLine + i;
        if lineno == startLine {
          r := ReplaceLine(items[i], lineno, startCol, 0);
        } else if lineno == endLine {
          r := ReplaceLine(items[i], lineno, 0, endCol);
        } else {
          r := ReplaceLine(items[i], lineno, 0, 0);
        }
        if r.Err? {
          return;
        }
        i := i + 1;
      }
      r := Ok(());
    }

    /** `fix_link` */
    method FixLink(attrs: seq<Attr>, startLine: int, startCol: int, endLine: int, endCol: int)
      returns (r: Result<()>)
      modifies this
      ensures Outcome(State(), r) == LinkFixed(old(State()), attrs, Span(startLine, startCol, endLine, endCol))
    {
      var link := FixedLink(attrs);
      if link.Err? {
        return Err(link.error);
      }
      r := Ok(());
      if link.value.Some? {
        if startLine != endLine {
          r := ReplaceLines([link.value.value] + Blanks(endLine - startLine), startLine, startCol, endLine, endCol);
        } else {
          r := ReplaceLine(link.value.value, startLine, startCol, endCol);
        }
      }
    }

    /** `wrap_words` */
    method WrapWords(data: string, startLine: int, startCol: int, endLine: int, endCol: int)
      returns (r: Result<()>)
      modifies this
      ensures Outcome(State(), r) == WordsWrapped(old(State()), data, Span(startLine, startCol, endLine, endCol))
    {
      var w := Wrap(data);
      r := Ok(());
      if w.count != 0 {
        if startLine != endLine {
          r := ReplaceLines(SplitLines(w.text), startLine, startCol, endLine, endCol);
        } else {
          r := ReplaceLine(w.text, startLine, startCol, endCol);
        }
      }
    }

    /** The registered callback a recorded call goes to. */
    method Callback(c: Call) returns (r: Result<()>)
      modifies this
      ensures Outcome(State(), r) == Dispatch(old(State()), c)
    {
      match c
      case DataCall(data, span) =>
        r := WrapWords(data, span.startLine, span.startCol, span.endLine, span.endCol);
      case TagCall(tag, attrs, span) =>
        if tag == "a" {
          r := FixLink(attrs, span.startLine, span.startCol, span.endLine, span.endCol);
        } else if tag == "data" {
          r := Err(TypeError);
        } else {
          r := Err(KeyError(tag));
        }
    }

    /** `modify_data` */
    method ModifyData(data: string, tokenize: Tokenizer) returns (r: Result<string>)
      modifies this
      ensures Rewrite(State(), r) == Modified(old(offsets), data, tokenize)
    {
      var parser := new Parser(Callbacks);
      lines := SplitLines(data);
      var fed := parser.Feed(data, tokenize);
      var calls := parser.calls;
      ghost var start := State();
      var i := 0;
      while i < |calls|
        invariant 0 <= i <= |calls|
        invariant ApplyAll(State(), calls[i..]) == ApplyAll(start, calls)
      {
        assert calls[i..][1..] == calls[i + 1..];
        var res := Callback(calls[i]);
        if res.Err? {
          return Err(res.error);
        }
        i := i + 1;
      }
      if fed.Err? {
        return Err(fed.error);
      }
      r := Ok(Join(lines, "\n"));
    }
  }
}
