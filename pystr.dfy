/** The parts of Python's `str` that the core relies on: `strip`, `split()`, `splitlines`,
    `join`, `count`, `in`, `replace` and slice-index clamping. */
module PyStr {
  import opened Common

  /** `str.isspace()` (ascii == false) and the ASCII set used by `bytes.strip()` and `int()`
      (ascii == true). */
  predicate IsWs(c: char, ascii: bool) {
    if ascii then c == ' ' || c == '\t' || c == '\n' || c == '\r' || c == '\U{0B}' || c == '\U{0C}'
    else
      c == ' ' || ('\t' <= c <= '\r') || ('\U{1C}' <= c <= '\U{1F}') || c == '\U{85}' || c == '\U{A0}'
      || c == '\U{1680}' || ('\U{2000}' <= c <= '\U{200A}') || c == '\U{2028}' || c == '\U{2029}'
      || c == '\U{202F}' || c == '\U{205F}' || c == '\U{3000}'
  }

  predicate AllWs(s: string, ascii: bool) {
    forall i :: 0 <= i < |s| ==> IsWs(s[i], ascii)
  }

  function LStrip(s: string, ascii: bool): (r: string)
    ensures |r| <= |s|
    decreases |s|
  {
    if s != [] && IsWs(s[0], ascii) then LStrip(s[1..], ascii) else s
  }

  /** `lstrip` removes the leading white space and nothing else. */
  lemma {:induction false} LStripSpec(s: string, ascii: bool)
    ensures var r := LStrip(s, ascii);
            && r == s[|s| - |r|..]
            && (forall i :: 0 <= i < |s| - |r| ==> IsWs(s[i], ascii))
            && (r == [] || !IsWs(r[0], ascii))
    decreases |s|
  {
    if s != [] && IsWs(s[0], ascii) {
      LStripSpec(s[1..], ascii);
    }
  }

  function RStrip(s: string, ascii: bool): (r: string)
    ensures |r| <= |s|
    decreases |s|
  {
    if s != [] && IsWs(s[|s| - 1], ascii) then RStrip(s[..|s| - 1], ascii) else s
  }

  /** `rstrip` removes the trailing white space and nothing else. */
  lemma {:induction false} RStripSpec(s: string, ascii: bool)
    ensures var r := RStrip(s, ascii);
            && r == s[..|r|]
            && (forall i :: |r| <= i < |s| ==> IsWs(s[i], ascii))
            && (r == [] || !IsWs(r[|r| - 1], ascii))
    decreases |s|
  {
    if s != [] && IsWs(s[|s| - 1], ascii) {
      RStripSpec(s[..|s| - 1], ascii);
    }
  }

  /** `str.strip()` (ascii == false) or `bytes.strip()` (ascii == true). */
  function StripBy(s: string, ascii: bool): (r: string)
  {
    RStrip(LStrip(s, ascii), ascii)
  }

  function Strip(s: string): string { StripBy(s, false) }

  predicate IsStripped(s: string) { Strip(s) == s }

  /** Stripping removes exactly the surrounding white space: padding a stripped string with
      white space on both sides and stripping again gives it back. */
  lemma {:induction false} StripPadded(a: string, v: string, b: string)
    requires AllWs(a, false) && AllWs(b, false) && IsStripped(v)
    ensures Strip(a + v + b) == v
  {
    if v == [] {
      assert a + v + b == a + b;
      assert AllWs(a + b, false);
      RStripAllWs(a + b);
    } else {
      StrippedEnds(v);
      assert a + v + b == a + (v + b);
      LStripPadded(a, v + b, false);
      RStripPadded(v, b, false);
    }
  }

  lemma {:induction false} StrippedEnds(v: string)
    requires IsStripped(v) && v != []
    ensures !IsWs(v[0], false) && !IsWs(v[|v| - 1], false)
  {
    var l := LStrip(v, false);
    assert l == v[|v| - |l|..];
    var r := RStrip(l, false);
    assert r == v;
    assert |l| == |v|;
  }

  lemma {:induction false} LStripPadded(a: string, w: string, ascii: bool)
    requires AllWs(a, ascii) && (w == [] || !IsWs(w[0], ascii))
    ensures LStrip(a + w, ascii) == w
    decreases |a|
  {
    if a == [] {
      assert a + w == w;
    } else {
      assert (a + w)[1..] == a[1..] + w;
      LStripPadded(a[1..], w, ascii);
    }
  }

  lemma {:induction false} RStripPadded(v: string, b: string, ascii: bool)
    requires AllWs(b, ascii) && v != [] && !IsWs(v[|v| - 1], ascii)
    ensures RStrip(v + b, ascii) == v
    decreases |b|
  {
    if b == [] {
      assert v + b == v;
    } else {
      assert (v + b)[..|v + b| - 1] == v + b[..|b| - 1];
      RStripPadded(v, b[..|b| - 1], ascii);
    }
  }

  lemma {:induction false} RStripAllWs(b: string)
    requires AllWs(b, false)
    ensures RStrip(b, false) == [] && LStrip(b, false) == []
    decreases |b|
  {
    if b != [] {
      RStripAllWs(b[..|b| - 1]);
      RStripAllWs(b[1..]);
    }
  }

  /** Length of the leading run of non-white-space characters. */
  function TokenLen(t: string): (k: nat)
    ensures k <= |t|
    ensures forall i :: 0 <= i < k ==> !IsWs(t[i], false)
    ensures k < |t| ==> IsWs(t[k], false)
    ensures t != [] && !IsWs(t[0], false) ==> k > 0
  {
    if t == [] || IsWs(t[0], false) then 0 else 1 + TokenLen(t[1..])
  }

  predicate IsWord(a: string) {
    a != [] && forall i :: 0 <= i < |a| ==> !IsWs(a[i], false)
  }

  /** `str.split()`: the maximal runs of non-white-space characters, in order. */
  function Words(s: string): (r: seq<string>)
    ensures forall i :: 0 <= i < |r| ==> IsWord(r[i])
    decreases |s|
  {
    var t := LStrip(s, false);
    if t == [] then []
    else
      LStripSpec(s, false);
      var k := TokenLen(t);
      var w := t[..k];
      assert IsWord(w);
      [w] + Words(t[k..])
  }

  /** A word followed by a space is the first element of the split. */
  lemma {:induction false} WordsCons(a: string, r: string)
    requires IsWord(a)
    ensures Words(a + " " + r) == [a] + Words(r)
  {
    var s := a + " " + r;
    assert LStrip(s, false) == s;
    TokenLenPrefix(a, " " + r);
    assert s == a + (" " + r);
    assert s[|a|..] == " " + r;
    assert Words(s) == [a] + Words(" " + r);
    assert LStrip(" " + r, false) == LStrip(r, false) by {
      assert (" " + r)[1..] == r;
    }
  }

  lemma {:induction false} TokenLenPrefix(a: string, r: string)
    requires forall i :: 0 <= i < |a| ==> !IsWs(a[i], false)
    requires r != [] && IsWs(r[0], false)
    ensures TokenLen(a + r) == |a|
    decreases |a|
  {
    if a == [] {
      assert a + r == r;
    } else {
      assert (a + r)[1..] == a[1..] + r;
      TokenLenPrefix(a[1..], r);
    }
  }

  /** The characters `str.splitlines()` treats as line boundaries: LF, VT, FF, CR, the
      separators FS, GS and RS, NEL, LINE SEPARATOR and PARAGRAPH SEPARATOR. */
  const LineBreaks: set<char> :=
    {'\n', '\U{0B}', '\U{0C}', '\r', '\U{1C}', '\U{1D}', '\U{1E}', '\U{85}', '\U{2028}', '\U{2029}'}

  predicate IsLineBoundary(c: char) { c in LineBreaks }

  predicate NoBoundary(s: string) {
    forall i :: 0 <= i < |s| ==> !IsLineBoundary(s[i])
  }

  /** Every line break in `s` is a line feed. */
  predicate OnlyLfBreaks(s: string) {
    forall j {:trigger IsLineBoundary(s[j])} :: 0 <= j < |s| ==> IsLineBoundary(s[j]) ==> s[j] == '\n'
  }

  /** Where the line starting at `i` ends: the first line break at or after `i`, or the
      end of the text. */
  function LineEnd(s: string, i: nat): (e: nat)
    requires i <= |s|
    ensures i <= e <= |s|
    ensures e < |s| ==> IsLineBoundary(s[e])
    decreases |s| - i
  {
    if i == |s| || IsLineBoundary(s[i]) then i else LineEnd(s, i + 1)
  }

  /** A line holds no line break. */
  lemma {:induction false} LineEndClean(s: string, i: nat)
    requires i <= |s|
    ensures NoBoundary(s[i..LineEnd(s, i)])
    decreases |s| - i
  {
    if i < |s| && !IsLineBoundary(s[i]) {
      LineEndClean(s, i + 1);
      assert s[i..LineEnd(s, i)] == [s[i]] + s[i + 1..LineEnd(s, i + 1)];
    }
  }

  /** A line ends no later than the next line break. */
  lemma {:induction false} LineEndBound(s: string, i: nat, j: nat)
    requires i <= j < |s| && IsLineBoundary(s[j])
    ensures LineEnd(s, i) <= j
    decreases j - i
  {
    if !IsLineBoundary(s[i]) {
      LineEndBound(s, i + 1, j);
    }
  }

  /** The width of the line terminator at `k`: two for CR LF, one otherwise. */
  function TermLen(s: string, k: nat): (w: nat)
    requires k < |s|
    ensures k + w <= |s| && 1 <= w <= 2
  {
    if s[k] == '\r' && k + 1 < |s| && s[k + 1] == '\n' then 2 else 1
  }

  /** The lines of `s` from index `i` on, without their terminators. */
  function LinesFrom(s: string, i: nat): (r: seq<string>)
    requires i <= |s|
    ensures i < |s| <==> r != []
    decreases |s| - i
  {
    if i == |s| then []
    else
      var e := LineEnd(s, i);
      if e == |s| then [s[i..]]
      else [s[i..e]] + LinesFrom(s, e + TermLen(s, e))
  }

  /** `str.splitlines()`: lines without their terminators; "\r\n" is one terminator and a
      terminator at the very end does not start another line. */
  function SplitLines(s: string): (r: seq<string>)
    ensures s != [] <==> r != []
  {
    LinesFrom(s, 0)
  }

  /** The lines from `i` on, when a line break follows `i`: the line up to it, then the
      lines after its terminator. */
  lemma LinesFromStep(s: string, i: nat) returns (e: nat, w: nat)
    requires i <= |s| && LineEnd(s, i) < |s|
    ensures e == LineEnd(s, i) && w == TermLen(s, e) && e + w <= |s|
    ensures LinesFrom(s, i) == [s[i..e]] + LinesFrom(s, e + w)
  {
    e := LineEnd(s, i);
    w := TermLen(s, e);
  }

  lemma {:induction false} LinesFromClean(s: string, i: nat)
    requires i <= |s|
    ensures forall k :: 0 <= k < |LinesFrom(s, i)| ==> NoBoundary(LinesFrom(s, i)[k])
    decreases |s| - i
  {
    if i < |s| {
      LineEndClean(s, i);
      if LineEnd(s, i) == |s| {
        assert LinesFrom(s, i) == [s[i..]];
        assert s[i..] == s[i..LineEnd(s, i)];
      } else {
        var e, w := LinesFromStep(s, i);
        LinesFromClean(s, e + w);
        var r := LinesFrom(s, i);
        var tail := LinesFrom(s, e + w);
        forall k | 1 <= k < |r| ensures NoBoundary(r[k]) {
          assert r[k] == tail[k - 1];
        }
      }
    }
  }

  /** No line `splitlines` returns holds a line break. */
  lemma SplitLinesClean(s: string)
    ensures forall i :: 0 <= i < |SplitLines(s)| ==> NoBoundary(SplitLines(s)[i])
  {
    LinesFromClean(s, 0);
  }

  /** `sep.join(parts)` */
  function Join(parts: seq<string>, sep: string): string
  {
    if parts == [] then [] else if |parts| == 1 then parts[0] else parts[0] + sep + Join(parts[1..], sep)
  }

  /** Joining the lines from `i` on with "\n" gives back the text from `i` on, when its only
      line terminator is "\n" and it does not end with one. */
  lemma {:induction false} JoinLinesFrom(s: string, i: nat)
    requires i <= |s|
    requires OnlyLfBreaks(s)
    requires s == [] || s[|s| - 1] != '\n'
    ensures Join(LinesFrom(s, i), "\n") == s[i..]
    decreases |s| - i
  {
    if i < |s| && LineEnd(s, i) == |s| {
      assert LinesFrom(s, i) == [s[i..]];
    } else if i < |s| {
      var e := LineEnd(s, i);
      assert s[e] == '\n' && e + 1 < |s|;
      LinesFromAtLf(s, i);
      JoinLinesFrom(s, e + 1);
      JoinAtLf(s, i, e, LinesFrom(s, e + 1));
    }
  }

  lemma JoinAtLf(s: string, i: nat, e: nat, tail: seq<string>)
    requires i <= e < |s| && s[e] == '\n' && tail != [] && Join(tail, "\n") == s[e + 1..]
    ensures Join([s[i..e]] + tail, "\n") == s[i..]
  {
    JoinCons(s[i..e], tail, "\n");
    SplitAt(s, i, e);
  }

  /** The lines from `i` on, when the first line ends with a line feed. */
  lemma LinesFromAtLf(s: string, i: nat)
    requires i <= |s| && LineEnd(s, i) < |s| && s[LineEnd(s, i)] == '\n'
    ensures LinesFrom(s, i) == [s[i..LineEnd(s, i)]] + LinesFrom(s, LineEnd(s, i) + 1)
  {
    assert TermLen(s, LineEnd(s, i)) == 1;
  }

  lemma SplitAt<T>(s: seq<T>, i: nat, e: nat)
    requires i <= e < |s|
    ensures s[i..] == s[i..e] + [s[e]] + s[e + 1..]
  {
  }

  /** A text whose only line terminator is "\n" and that does not end with one survives
      `'\n'.join(text.splitlines())` unchanged. */
  lemma JoinSplitLines(s: string)
    requires OnlyLfBreaks(s)
    requires s == [] || s[|s| - 1] != '\n'
    ensures Join(SplitLines(s), "\n") == s
  {
    JoinLinesFrom(s, 0);
    assert s[0..] == s;
  }

  lemma JoinCons(a: string, parts: seq<string>, sep: string)
    requires parts != []
    ensures Join([a] + parts, sep) == a + sep + Join(parts, sep)
  {
    assert ([a] + parts)[1..] == parts;
  }

  /** `s.find(c)`, with `|s|` standing for "not found". */
  function IndexOf(s: string, c: char): (i: nat)
    ensures i <= |s| && (forall j :: 0 <= j < i ==> s[j] != c)
    ensures i < |s| ==> s[i] == c
  {
    if s == [] || s[0] == c then 0 else 1 + IndexOf(s[1..], c)
  }

  lemma {:induction false} IndexOfAt(s: string, c: char, i: nat)
    requires i <= |s| && (forall j :: 0 <= j < i ==> s[j] != c) && (i < |s| ==> s[i] == c)
    ensures IndexOf(s, c) == i
  {
    if i > 0 {
      IndexOfAt(s[1..], c, i - 1);
    }
  }

  /** `s.count(c)` for a one-character `c`. */
  function Count(s: string, c: char): (n: nat)
    ensures n <= |s|
  {
    if s == [] then 0 else (if s[0] == c then 1 else 0) + Count(s[1..], c)
  }

  lemma {:induction false} CountAppend(a: string, b: string, c: char)
    ensures Count(a + b, c) == Count(a, c) + Count(b, c)
    decreases |a|
  {
    if a == [] {
      assert a + b == b;
    } else {
      assert (a + b)[1..] == a[1..] + b;
      CountAppend(a[1..], b, c);
    }
  }

  predicate StartsWith(s: string, p: string) {
    |p| <= |s| && s[..|p|] == p
  }

  /** `p in s` */
  predicate Contains(s: string, p: string)
    decreases |s|
  {
    StartsWith(s, p) || (s != [] && Contains(s[1..], p))
  }

  /** `s.replace(p, q)`: every occurrence of `p`, left to right and without overlap. */
  function Replace(s: string, p: string, q: string): (r: string)
    requires p != []
    decreases |s|
  {
    if |s| < |p| then s
    else if s[..|p|] == p then q + Replace(s[|p|..], p, q)
    else [s[0]] + Replace(s[1..], p, q)
  }

  lemma {:induction false} ReplaceAbsent(s: string, p: string, q: string)
    requires p != [] && !Contains(s, p)
    ensures Replace(s, p, q) == s
    decreases |s|
  {
    if |s| >= |p| {
      ReplaceAbsent(s[1..], p, q);
    }
  }

  /** One of `a`, `b` is a prefix of the other. */
  predicate Compatible(a: string, b: string) {
    StartsWith(a, b) || StartsWith(b, a)
  }

  /** No occurrence of `p` can straddle or sit inside an inserted `q`. */
  predicate NoOverlap(p: string, q: string) {
    && (forall j :: 0 <= j < |q| ==> !Compatible(q[j..], p))
    && (forall k :: 1 <= k < |p| ==> !Compatible(q, p[k..]))
  }

  lemma {:induction false} ReplacedTail(s: string, p: string, q: string, k: nat)
    requires p != [] && NoOverlap(p, q) && 1 <= k <= |p|
    requires StartsWith(Replace(s, p, q), p[k..])
    ensures StartsWith(s, p[k..])
    decreases |s|
  {
    var r := Replace(s, p, q);
    if k < |p| && |s| >= |p| {
      if s[..|p|] == p {
        assert false;
      } else {
        assert r == [s[0]] + Replace(s[1..], p, q);
        assert p[k..][1..] == p[k + 1..];
        ReplacedTail(s[1..], p, q, k + 1);
      }
    }
  }

  /** After `replace`, no occurrence of the replaced text remains, provided the
      replacement cannot combine with its surroundings into a new occurrence. */
  lemma {:induction false} ReplaceRemovesAll(s: string, p: string, q: string)
    requires p != [] && NoOverlap(p, q)
    ensures !Contains(Replace(s, p, q), p)
    decreases |s|
  {
    var r := Replace(s, p, q);
    if |s| < |p| {
      NotContainsShort(s, p);
    } else if s[..|p|] == p {
      var r' := Replace(s[|p|..], p, q);
      ReplaceRemovesAll(s[|p|..], p, q);
      NotContainsAfter(q, r', p);
    } else {
      var r' := Replace(s[1..], p, q);
      ReplaceRemovesAll(s[1..], p, q);
      assert r[1..] == r';
      if StartsWith(r, p) {
        assert StartsWith(r', p[1..]);
        if |p| > 1 {
          ReplacedTail(s[1..], p, q, 1);
        }
        assert false;
      }
    }
  }

  lemma {:induction false} NotContainsShort(s: string, p: string)
    requires |s| < |p|
    ensures !Contains(s, p)
    decreases |s|
  {
    if s != [] {
      NotContainsShort(s[1..], p);
    }
  }

  lemma {:induction false} NotContainsAfter(q: string, r: string, p: string)
    requires !Contains(r, p) && p != []
    requires forall j :: 0 <= j < |q| ==> !Compatible(q[j..], p)
    ensures !Contains(q + r, p)
    decreases |q|
  {
    if q == [] {
      assert q + r == r;
    } else {
      assert !Compatible(q[0..], p);
      assert q[0..] == q;
      assert !StartsWith(q + r, p);
      assert (q + r)[1..] == q[1..] + r;
      forall j | 0 <= j < |q[1..]| ensures !Compatible(q[1..][j..], p) {
        assert q[1..][j..] == q[j + 1..];
      }
      NotContainsAfter(q[1..], r, p);
    }
  }

  /** Python's treatment of a slice bound `i` on a sequence of length `n`: negative bounds
      count from the end, and bounds are clamped into [0, n]. */
  function SliceIndex(i: int, n: nat): (k: nat)
    ensures k <= n
    ensures 0 <= i <= n ==> k == i
  {
    if i < 0 then (if n + i < 0 then 0 else n + i) else if i > n then n else i
  }

  /** `s.rindex(c)`: the last position of `c`; `None` is the `ValueError` raised when
      there is none. */
  function LastIndexOf(s: string, c: char): (r: Option<nat>)
    ensures r.None? <==> c !in s
    ensures r.Some? ==> r.value < |s| && s[r.value] == c && c !in s[r.value + 1..]
  {
    if s == [] then None
    else if s[|s| - 1] == c then Some(|s| - 1)
    else
      var r := LastIndexOf(s[..|s| - 1], c);
      assert s == s[..|s| - 1] + [s[|s| - 1]];
      if r.Some? then
        assert s[r.value + 1..] == s[..|s| - 1][r.value + 1..] + [s[|s| - 1]];
        r
      else r
  }

  /** Python's `xs[i]` on a list of length `n`: negative indexes count from the end;
      `None` is the `IndexError`. */
  function ListIndex(i: int, n: nat): (k: Option<nat>)
    ensures k.Some? ==> k.value < n
    ensures 0 <= i < n ==> k == Some(i)
    ensures (i >= n || i + n < 0) <==> k.None?
  {
    if 0 <= i < n then Some(i) else if 0 <= i + n && i < 0 then Some(i + n) else None
  }
}
