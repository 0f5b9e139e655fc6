/** The position bookkeeping `ProxyHTMLParser` adds on top of the standard library's HTML
    tokenizer: where a text run or a start tag ends, whether text currently sits inside a
    script or style element, and which callbacks fire with which positions. The tokenizer
    itself is an input: the events it reports for a document, each with its `getpos()`.
    A callback invocation is recorded as a `Call`; the rewriter applies them in order. */
module HtmlParser {
  import opened Common
  import opened PyStr

  /** An attribute as the tokenizer reports it; a bare attribute has no value. */
  datatype Attr = Attr(name: string, value: Option<string>)

  /** What the tokenizer reports. `line` (from 1) and `col` (from 0) are `getpos()` at the
      start of the token; `endIndex` is the index just past the start tag's `>`, as
      `check_for_whole_start_tag` finds it. */
  datatype Event =
    | StartTag(tag: string, attrs: seq<Attr>, line: int, col: int, endIndex: int)
    | EndTag(tag: string)
    | Text(data: string, line: int, col: int)

  /** The tokenizer: the events of a whole document fed at once. */
  type Tokenizer = string -> seq<Event>

  /** Start line, start column, end line, end column, as passed to a callback. */
  datatype Span = Span(startLine: int, startCol: int, endLine: int, endCol: int)

  /** `callbacks['data'](data, *pos)` or `callbacks[tag](attrs, *pos)`. */
  datatype Call =
    | DataCall(data: string, span: Span)
    | TagCall(tag: string, attrs: seq<Attr>, span: Span)

  /** The elements whose content is never handed to the text callback. */
  predicate IsRawText(tag: string) { tag == "script" || tag == "style" }

  datatype Pos = Pos(line: int, col: int)

  /** Where a cursor standing at `p` ends up after reading `s`: a line feed moves to column 0
      of the next line, any other character one column on. This is how the tokenizer
      itself counts positions. */
  function After(p: Pos, s: string): Pos
  {
    if s == [] then p
    else
      var q := After(p, s[..|s| - 1]);
      if s[|s| - 1] == '\n' then Pos(q.line + 1, 0) else Pos(q.line, q.col + 1)
  }

  /** `get_data_pos(data)`: the end line adds the line feeds of the run; the end column is
      the length of the run's last line when it has a line feed, and start column plus
      length otherwise. */
  function DataPos(data: string, line: int, col: int): (p: Span)
    ensures p.startLine == line && p.startCol == col
    ensures '\n' !in data ==> p == Span(line, col, line, col + |data|)
  {
    var n := Count(data, '\n');
    CountZero(data, '\n');
    if n != 0 then
      var lines := SplitLines(data);
      Span(line, col, line + n, |lines[|lines| - 1]|)
    else
      Span(line, col, line, col + |data|)
  }

  /** `get_starttag_pos()`: the end line counts the line feeds before the end index; the
      end column is measured from the last of them, which `rindex` requires to exist. */
  function StartTagPos(raw: string, idx: int, line: int, col: int): (r: Result<Span>)
    ensures r.Err? <==> '\n' !in raw[..SliceIndex(idx, |raw|)]
    ensures r.Err? ==> r.error == ValueError
    ensures r.Ok? ==> r.value.startLine == line && r.value.startCol == col
  {
    var before := raw[..SliceIndex(idx, |raw|)];
    match LastIndexOf(before, '\n')
    case None => Err(ValueError)
    case Some(j) => Ok(Span(line, col, Count(before, '\n') + 1, idx - (j + 1)))
  }

  lemma {:induction false} CountZero(s: string, c: char)
    ensures Count(s, c) == 0 <==> c !in s
    decreases |s|
  {
    if s != [] {
      CountZero(s[1..], c);
      assert s == [s[0]] + s[1..];
    }
  }

  /** Reading text without a line feed stays on the line. */
  lemma {:induction false} AfterNoLf(p: Pos, s: string)
    requires '\n' !in s
    ensures After(p, s) == Pos(p.line, p.col + |s|)
    decreases |s|
  {
    if s != [] {
      AfterNoLf(p, s[..|s| - 1]);
    }
  }

  /** The cursor's line advances by the number of line feeds read. */
  lemma {:induction false} AfterLine(p: Pos, s: string)
    ensures After(p, s).line == p.line + Count(s, '\n')
    decreases |s|
  {
    if s != [] {
      var init := s[..|s| - 1];
      AfterLine(p, init);
      assert s == init + [s[|s| - 1]];
      CountAppend(init, [s[|s| - 1]], '\n');
    }
  }

  /** After the last line feed the column is the length of what follows it. */
  lemma AfterLastLine(p: Pos, a: string, b: string)
    requires '\n' !in b
    ensures After(p, a + "\n" + b) == Pos(p.line + Count(a, '\n') + 1, |b|)
  {
    var x := a + "\n";
    AfterLine(p, a);
    assert x[..|x| - 1] == a;
    assert After(p, x) == Pos(p.line + Count(a, '\n') + 1, 0);
    AfterAppend(p, x, b);
    AfterNoLf(After(p, x), b);
  }

  lemma {:induction false} AfterAppend(p: Pos, a: string, b: string)
    ensures After(p, a + b) == After(After(p, a), b)
    decreases |b|
  {
    if b == [] {
      assert a + b == a;
    } else {
      AfterAppend(p, a, b[..|b| - 1]);
      assert (a + b)[..|a + b| - 1] == a + b[..|b| - 1];
    }
  }

  /** The last line `splitlines` gives for a text whose last line break is a line feed is
      what follows that line feed. */
  lemma SplitLinesLast(x: string, b: string)
    requires x != [] && x[|x| - 1] == '\n' && b != [] && NoBoundary(b)
    ensures var ls := SplitLines(x + b); ls != [] && ls[|ls| - 1] == b
  {
    var s := x + b;
    assert s[|x|..] == b;
    LinesFromLast(s, 0, |x| - 1);
  }

  /** The same for the lines from index `i` on, when the last line break is a line feed at
      `j`. */
  lemma {:induction false} LinesFromLast(s: string, i: nat, j: nat)
    requires i <= j && j + 1 < |s| && s[j] == '\n' && NoBoundary(s[j + 1..])
    ensures var ls := LinesFrom(s, i); ls != [] && ls[|ls| - 1] == s[j + 1..]
    decreases |s| - i
  {
    LineEndBound(s, i, j);
    var e, w := LinesFromStep(s, i);
    var tail := LinesFrom(s, e + w);
    assert tail != [] && tail[|tail| - 1] == s[j + 1..] by {
      if e + w == j + 1 {
        LineEndNoBoundary(s, j + 1);
      } else {
        LinesFromLast(s, e + w, j);
      }
    }
    LastOfAppend([s[i..e]], tail);
  }

  /** A line that holds no line break runs to the end of the text. */
  lemma {:induction false} LineEndNoBoundary(s: string, k: nat)
    requires k <= |s| && NoBoundary(s[k..])
    ensures LineEnd(s, k) == |s|
    decreases |s| - k
  {
    if k < |s| {
      assert s[k] == s[k..][0];
      assert s[k + 1..] == s[k..][1..];
      LineEndNoBoundary(s, k + 1);
    }
  }

  lemma LastOfAppend<T>(a: seq<T>, b: seq<T>)
    requires b != []
    ensures (a + b)[|a + b| - 1] == b[|b| - 1]
  {
  }

  /** Where every line break of a text run is a line feed and the run does not end with
      one, `get_data_pos` reports the position reached by reading the delivered text from
      the given start. That is the tokenizer's cursor only when the raw run holds no
      character reference: with `convert_charrefs` on, `&amp;` is delivered as one
      character while the cursor moves over five. */
  lemma DataPosAdvance(data: string, line: int, col: int)
    requires forall i :: 0 <= i < |data| ==> IsLineBoundary(data[i]) ==> data[i] == '\n'
    requires data != [] && data[|data| - 1] != '\n'
    ensures var q := After(Pos(line, col), data);
            DataPos(data, line, col) == Span(line, col, q.line, q.col)
  {
    if '\n' !in data {
      AfterNoLf(Pos(line, col), data);
    } else {
      var a, b := SplitAtLastLf(data);
      LastLineClean(data, a, b);
      AfterLastLine(Pos(line, col), a, b);
      DataPosSplit(data, a, b, line, col);
    }
  }

  /** A text with a line feed is what precedes its last line feed, the line feed, and a
      rest without line feed. */
  lemma SplitAtLastLf(s: string) returns (a: string, b: string)
    requires '\n' in s
    ensures s == a + "\n" + b && '\n' !in b && LastIndexOf(s, '\n') == Some(|a|)
  {
    var j := LastIndexOf(s, '\n').value;
    a, b := s[..j], s[j + 1..];
    assert s == a + "\n" + b;
  }

  lemma LastLineClean(data: string, a: string, b: string)
    requires forall i :: 0 <= i < |data| ==> IsLineBoundary(data[i]) ==> data[i] == '\n'
    requires data == a + "\n" + b && '\n' !in b
    ensures NoBoundary(b)
  {
    forall i | 0 <= i < |b| ensures !IsLineBoundary(b[i]) {
      assert b[i] == data[|a| + 1 + i];
    }
  }

  lemma CountLastLf(a: string, b: string)
    requires '\n' !in b
    ensures Count(a + "\n" + b, '\n') == Count(a, '\n') + 1
  {
    CountAppend(a + "\n", b, '\n');
    CountAppend(a, "\n", '\n');
    CountZero(b, '\n');
  }

  /** A run whose last line feed is followed by a non-empty line `b` ends on the line after
      its other line feeds, at column `|b|`. */
  lemma DataPosSplit(data: string, a: string, b: string, line: int, col: int)
    requires data == a + "\n" + b && '\n' !in b && b != [] && NoBoundary(b)
    ensures DataPos(data, line, col) == Span(line, col, line + Count(a, '\n') + 1, |b|)
  {
    SplitLinesLast(a + "\n", b);
    CountLastLf(a, b);
  }

  /** A run ending in a line feed is reported at the length of its last non-empty line,
      not at column 0 of the next line where the cursor stands. */
  lemma DataPosTrailingLf()
    ensures DataPos("ab\n", 1, 0) == Span(1, 0, 2, 2)
    ensures After(Pos(1, 0), "ab\n") == Pos(2, 0)
  {
  }

  /** When a line feed precedes the end of a start tag, `get_starttag_pos` reports the
      position the tokenizer's cursor reaches at the end of the tag, counted from the start
      of the document. */
  lemma StartTagPosAdvance(raw: string, idx: int, line: int, col: int)
    requires 0 <= idx <= |raw| && '\n' in raw[..idx]
    ensures var q := After(Pos(1, 0), raw[..idx]);
            StartTagPos(raw, idx, line, col) == Ok(Span(line, col, q.line, q.col))
  {
    var a, b := SplitAtLastLf(raw[..idx]);
    AfterLastLine(Pos(1, 0), a, b);
    CountLastLf(a, b);
  }

  /** A start tag that ends on the first line has no line feed before it, and
      `get_starttag_pos` raises `ValueError`. */
  lemma StartTagOnFirstLine(raw: string, idx: int, line: int, col: int)
    requires 0 <= idx <= |raw| && After(Pos(1, 0), raw[..idx]).line == 1
    ensures StartTagPos(raw, idx, line, col) == Err(ValueError)
  {
    AfterLine(Pos(1, 0), raw[..idx]);
    CountZero(raw[..idx], '\n');
  }

  /** The parser's state as the handlers change it (`data_enabled`,
      `starttag_end_index`), the callbacks invoked so far, and the exception that stopped
      the feed, if any. */
  datatype Trace = Trace(enabled: bool, endIndex: int, calls: seq<Call>, failure: Option<Error>)

  /** A freshly constructed parser. */
  const Initial: Trace := Trace(true, 0, [], None)

  /** What one tokenizer event does to the state, with `raw` the document being fed.
      `parse_starttag` records the end index before the start-tag handler runs; the
      handler updates the flag before it looks the tag up among the callbacks. */
  function Step(raw: string, callbacks: set<string>, t: Trace, e: Event): (u: Trace)
    ensures u.failure == t.failure || (e.StartTag? && e.tag in callbacks && u.failure == Some(ValueError))
    ensures t.calls <= u.calls && |u.calls| <= |t.calls| + 1
    ensures |u.calls| > |t.calls| && e.Text? ==> "data" in callbacks && t.enabled && Strip(e.data) != []
    ensures |u.calls| > |t.calls| && e.StartTag? ==> e.tag in callbacks
  {
    match e
    case Text(data, line, col) =>
      if "data" in callbacks && t.enabled && Strip(data) != [] then
        t.(calls := t.calls + [DataCall(data, DataPos(data, line, col))])
      else t
    case EndTag(tag) =>
      if IsRawText(tag) then t.(enabled := true) else t
    case StartTag(tag, attrs, line, col, idx) =>
      var t1 := t.(endIndex := idx, enabled := if IsRawText(tag) then false else t.enabled);
      if tag !in callbacks then t1
      else
        match StartTagPos(raw, t1.endIndex, line, col)
        case Err(err) => t1.(failure := Some(err))
        case Ok(span) => t1.(calls := t1.calls + [TagCall(tag, attrs, span)])
  }

  /** Feeding the events in order; an exception ends the feed. */
  function Run(raw: string, callbacks: set<string>, t: Trace, events: seq<Event>): (u: Trace)
    ensures t.calls <= u.calls
    ensures t.failure.Some? || events == [] ==> u == t
    decreases |events|
  {
    if events == [] || t.failure.Some? then t
    else Run(raw, callbacks, Step(raw, callbacks, t, events[0]), events[1..])
  }

  /** Every recorded call went to a registered callback, and every text call carries
      text that is not all white space. */
  predicate Registered(callbacks: set<string>, calls: seq<Call>) {
    forall i :: 0 <= i < |calls| ==>
      match calls[i]
      case DataCall(data, _) => "data" in callbacks && Strip(data) != []
      case TagCall(tag, _, _) => tag in callbacks
  }

  lemma {:induction false} RunRegistered(raw: string, callbacks: set<string>, t: Trace, events: seq<Event>)
    requires Registered(callbacks, t.calls)
    ensures Registered(callbacks, Run(raw, callbacks, t, events).calls)
    decreases |events|
  {
    if events != [] && t.failure.None? {
      var u := Step(raw, callbacks, t, events[0]);
      assert Registered(callbacks, u.calls) by {
        forall i | 0 <= i < |u.calls|
          ensures match u.calls[i]
                  case DataCall(data, _) => "data" in callbacks && Strip(data) != []
                  case TagCall(tag, _, _) => tag in callbacks
        {
          if i < |t.calls| {
            assert u.calls[i] == t.calls[i];
          }
        }
      }
      RunRegistered(raw, callbacks, u, events[1..]);
    }
  }

  /** Inside a script or style element, up to the next script or style end tag, no text
      reaches the callback, whatever else happens. */
  lemma {:induction false} RunSilent(raw: string, callbacks: set<string>, t: Trace, events: seq<Event>)
    requires !t.enabled
    requires forall i :: 0 <= i < |events| ==> !(events[i].EndTag? && IsRawText(events[i].tag))
    ensures var u := Run(raw, callbacks, t, events);
            !u.enabled && forall i :: |t.calls| <= i < |u.calls| ==> !u.calls[i].DataCall?
    decreases |events|
  {
    if events != [] && t.failure.None? {
      var u := Step(raw, callbacks, t, events[0]);
      RunSilent(raw, callbacks, u, events[1..]);
      var w := Run(raw, callbacks, u, events[1..]);
      assert w == Run(raw, callbacks, t, events);
      if |u.calls| > |t.calls| {
        assert !u.calls[|t.calls|].DataCall?;
      }
      assert forall i :: |t.calls| <= i < |u.calls| ==> w.calls[i] == u.calls[i];
    }
  }

  /** The flag by its last change: the last script or style tag among `events` decides, a
      start tag switching text off and an end tag switching it on, whichever element it
      names; without one the flag is `enabled`. */
  function FlagAfter(enabled: bool, events: seq<Event>): bool
  {
    if events == [] then enabled
    else
      var e := events[|events| - 1];
      if e.StartTag? && IsRawText(e.tag) then false
      else if e.EndTag? && IsRawText(e.tag) then true
      else FlagAfter(enabled, events[..|events| - 1])
  }

  /** A feed without exception leaves the flag as the last script or style tag set it. */
  lemma {:induction false} RunFlag(raw: string, callbacks: set<string>, t: Trace, events: seq<Event>)
    requires t.failure.None? && Run(raw, callbacks, t, events).failure.None?
    ensures Run(raw, callbacks, t, events).enabled == FlagAfter(t.enabled, events)
    decreases |events|
  {
    if events != [] {
      var u := Step(raw, callbacks, t, events[0]);
      RunFlag(raw, callbacks, u, events[1..]);
      FlagAfterCons(t.enabled, events[0], events[1..]);
      assert [events[0]] + events[1..] == events;
    }
  }

  lemma {:induction false} FlagAfterCons(enabled: bool, e: Event, rest: seq<Event>)
    ensures FlagAfter(enabled, [e] + rest) == FlagAfter(FlagAfter(enabled, [e]), rest)
    decreases |rest|
  {
    if rest != [] {
      var init := rest[..|rest| - 1];
      assert ([e] + rest)[..|rest|] == [e] + init;
      FlagAfterCons(enabled, e, init);
    }
  }

  /** `<script>alert(1)</script>hi` with the rewriter's callbacks: the script text is not
      reported, the text after the element is. */
  lemma ScriptExample(raw: string, events: seq<Event>)
    requires raw == "<script>alert(1)</script>hi"
    requires events == [StartTag("script", [], 1, 0, 8), Text("alert(1)", 1, 8),
                        EndTag("script"), Text("hi", 1, 25)]
    ensures Run(raw, {"a", "data"}, Initial, events).calls == [DataCall("hi", Span(1, 25, 1, 27))]
  {
    var cbs := {"a", "data"};
    var t1 := Step(raw, cbs, Initial, events[0]);
    assert t1 == Trace(false, 8, [], None);
    var t2 := Step(raw, cbs, t1, events[1]);
    assert t2 == t1;
    var t3 := Step(raw, cbs, t2, events[2]);
    assert t3 == Trace(true, 8, [], None);
    assert Strip("hi") == "hi";
    var t4 := Step(raw, cbs, t3, events[3]);
    assert t4.calls == [DataCall("hi", Span(1, 25, 1, 27))];
    assert Run(raw, cbs, t3, events[3..]) == t4 by {
      assert events[3..][1..] == [];
    }
    assert Run(raw, cbs, t2, events[2..]) == t4 by {
      assert events[2..][1..] == events[3..];
    }
    assert Run(raw, cbs, t1, events[1..]) == t4 by {
      assert events[1..][1..] == events[2..];
    }
  }

  function FailureOf(r: Result<()>): Option<Error> {
    if r.Err? then Some(r.error) else None
  }

  /** `ProxyHTMLParser`: the tokenizer's buffer, the two fields the handlers update, the
      names of the registered callbacks and the calls made to them so far. */
  class Parser {
    var rawdata: string
    var dataEnabled: bool
    var starttagEndIndex: int
    const callbacks: set<string>
    var calls: seq<Call>

    function State(): Trace
      reads this
    {
      Trace(dataEnabled, starttagEndIndex, calls, None)
    }

    constructor (callbacks: set<string>)
      ensures this.callbacks == callbacks && rawdata == [] && State() == Initial
    {
      this.callbacks := callbacks;
      rawdata := [];
      dataEnabled := true;
      starttagEndIndex := 0;
      calls := [];
    }

    /** `handle_data` */
    method HandleData(data: string, line: int, col: int)
      modifies this
      ensures rawdata == old(rawdata)
      ensures State() == Step(rawdata, callbacks, old(State()), Text(data, line, col))
    {
      if "data" in callbacks && dataEnabled && Strip(data) != [] {
        var pos := DataPos(data, line, col);
        calls := calls + [DataCall(data, pos)];
      }
    }

    /** `handle_endtag` */
    method HandleEndTag(tag: string)
      modifies this
      ensures rawdata == old(rawdata)
      ensures State() == Step(rawdata, callbacks, old(State()), EndTag(tag))
    {
      if IsRawText(tag) {
        dataEnabled := true;
      }
    }

    /** `handle_starttag`, reading the end index `parse_starttag` recorded. */
    method HandleStartTag(tag: string, attrs: seq<Attr>, line: int, col: int) returns (r: Result<()>)
      modifies this
      ensures rawdata == old(rawdata)
      ensures State().(failure := FailureOf(r))
              == Step(rawdata, callbacks, old(State()), StartTag(tag, attrs, line, col, old(starttagEndIndex)))
    {
      if IsRawText(tag) {
        dataEnabled := false;
      }
      r := Ok(());
      if tag in callbacks {
        var pos := StartTagPos(rawdata, starttagEndIndex, line, col);
        if pos.Err? {
          return Err(pos.error);
        }
        calls := calls + [TagCall(tag, attrs, pos.value)];
      }
    }

    /** `parse_starttag`: records where the tag ends, then lets the tokenizer report it. */
    method ParseStartTag(tag: string, attrs: seq<Attr>, line: int, col: int, endIndex: int)
      returns (r: Result<()>)
      modifies this
      ensures rawdata == old(rawdata)
      ensures State().(failure := FailureOf(r))
              == Step(rawdata, callbacks, old(State()), StartTag(tag, attrs, line, col, endIndex))
    {
      starttagEndIndex := endIndex;
      r := HandleStartTag(tag, attrs, line, col);
    }

    /** `feed(data)` of a whole document: the tokenizer's events, handled in order until
        one raises. */
    method Feed(data: string, tokenize: Tokenizer) returns (r: Result<()>)
      modifies this
      ensures rawdata == data
      ensures State().(failure := FailureOf(r)) == Run(data, callbacks, old(State()), tokenize(data))
    {
      rawdata := data;
      var events := tokenize(data);
      var i := 0;
      while i < |events|
        invariant 0 <= i <= |events| && rawdata == data
        invariant Run(data, callbacks, State(), events[i..]) == Run(data, callbacks, old(State()), events)
      {
        assert events[i..][1..] == events[i + 1..];
        match events[i] {
          case Text(d, l, c) =>
            HandleData(d, l, c);
          case EndTag(tag) =>
            HandleEndTag(tag);
          case StartTag(tag, attrs, l, c, k) =>
            var res := ParseStartTag(tag, attrs, l, c, k);
            if res.Err? {
              return res;
            }
        }
        i := i + 1;
      }
      r := Ok(());
    }
  }
}
