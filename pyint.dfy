/** Python's `int(text, base)` for bases 10 and 16 and `format(n, 'x')` / `str(n)` for
    non-negative `n`. */
module PyInt {
  import opened Common
  import opened PyStr

  predicate ValidBase(base: nat) { base == 10 || base == 16 }

  /** Value of a digit character in base 16 (either case), or -1. */
  function DigitValue(c: char): int
  {
    if '0' <= c <= '9' then c as int - '0' as int
    else if 'a' <= c <= 'f' then c as int - 'a' as int + 10
    else if 'A' <= c <= 'F' then c as int - 'A' as int + 10
    else -1
  }

  predicate IsDigit(c: char, base: nat) { 0 <= DigitValue(c) < base }

  predicate DigitsOrUnderscores(s: string, base: nat) {
    forall i :: 0 <= i < |s| ==> IsDigit(s[i], base) || s[i] == '_'
  }

  /** Digits with single underscores between them: no leading, trailing or doubled `_`. */
  predicate ValidDigits(s: string, base: nat) {
    && s != [] && IsDigit(s[0], base)
    && DigitsOrUnderscores(s, base)
    && (forall i, j :: 0 <= i < |s| && 0 <= j < |s| && j == i + 1 && s[i] == '_' ==> IsDigit(s[j], base))
    && s[|s| - 1] != '_'
  }

  function DigitsValue(s: string, base: nat): (v: nat)
    requires DigitsOrUnderscores(s, base)
  {
    if s == [] then 0
    else
      var d := s[|s| - 1];
      assert DigitsOrUnderscores(s[..|s| - 1], base);
      if d == '_' then DigitsValue(s[..|s| - 1], base)
      else
        assert IsDigit(d, base);
        DigitsValue(s[..|s| - 1], base) * base + DigitValue(d)
  }

  /** `int(s, base)`: surrounding ASCII white space, an optional sign, for base 16 an
      optional `0x`/`0X` prefix (which one underscore may follow), then digits. `None` is
      the `ValueError` Python raises. */
  function ParseInt(s: string, base: nat): (r: Option<int>)
    requires ValidBase(base)
    ensures r.Some? ==> StripBy(s, true) != []
  {
    ParseStripped(StripBy(s, true), base)
  }

  /** The sign, prefix and digits of `int(s, base)` after stripping. */
  function ParseStripped(t: string, base: nat): (r: Option<int>)
    requires ValidBase(base)
    ensures r.Some? ==> t != []
  {
    var neg := |t| > 0 && t[0] == '-';
    var u := if |t| > 0 && (t[0] == '-' || t[0] == '+') then t[1..] else t;
    var v :=
      if base == 16 && |u| >= 2 && u[0] == '0' && (u[1] == 'x' || u[1] == 'X') then
        (if |u| > 2 && u[2] == '_' then u[3..] else u[2..])
      else u;
    if ValidDigits(v, base) then
      var n: int := DigitsValue(v, base);
      Some(if neg then -n else n)
    else None
  }

  function DigitChar(d: nat): char
    requires d < 16
  {
    "0123456789abcdef"[d]
  }

  /** `format(n, 'x')` (base 16) and `str(n)` (base 10): lower-case digits, no leading zeros. */
  function Format(n: nat, base: nat): (s: string)
    requires ValidBase(base)
    ensures s != [] && forall i :: 0 <= i < |s| ==> IsDigit(s[i], base)
    ensures |s| > 1 ==> s[0] != '0'
    ensures n == 0 <==> s == "0"
  {
    if n < base then [DigitChar(n)] else Format(n / base, base) + [DigitChar(n % base)]
  }

  lemma {:induction false} FormatValue(n: nat, base: nat)
    requires ValidBase(base)
    ensures DigitsValue(Format(n, base), base) == n
  {
    var s := Format(n, base);
    if n < base {
      DigitCharValue(n);
    } else {
      var init := Format(n / base, base);
      var d := n % base;
      assert s == init + [DigitChar(d)];
      assert s[..|s| - 1] == init;
      DigitCharValue(d);
      FormatValue(n / base, base);
      assert DigitsValue(s, base) == DigitsValue(init, base) * base + d;
    }
  }

  lemma DigitCharValue(d: nat)
    requires d < 16
    ensures DigitValue(DigitChar(d)) == d
  {
    var digits := "0123456789abcdef";
    if d < 10 {
      assert digits[d] as int == '0' as int + d by {
        if d == 0 {} else if d == 1 {} else if d == 2 {} else if d == 3 {} else if d == 4 {}
        else if d == 5 {} else if d == 6 {} else if d == 7 {} else if d == 8 {} else {}
      }
    } else {
      assert digits[d] as int == 'a' as int + d - 10 by {
        if d == 10 {} else if d == 11 {} else if d == 12 {} else if d == 13 {} else if d == 14 {} else {}
      }
    }
  }

  /** `int(format(n, 'x'), 16) == n` and `int(str(n)) == n`. */
  lemma {:induction false} ParseFormat(n: nat, base: nat)
    requires ValidBase(base)
    ensures ParseInt(Format(n, base), base) == Some(n)
  {
    var s := Format(n, base);
    NoWsStrip(s);
    FormatValue(n, base);
    assert ValidDigits(s, base);
    assert |s| >= 2 ==> s[0] != '0';
  }

  /** `int('-' + str(n)) == -n`: the sign is read before the digits. */
  lemma {:induction false} ParseNegatedFormat(n: nat, base: nat)
    requires ValidBase(base)
    ensures ParseInt("-" + Format(n, base), base) == Some(-(n as int))
  {
    var h := Format(n, base);
    var s := "-" + h;
    assert !IsWs(s[|s| - 1], true) by {
      assert s[|s| - 1] == h[|h| - 1];
      assert IsDigit(h[|h| - 1], base);
    }
    NoWsStrip(s);
    assert s[1..] == h;
    FormatValid(n, base);
    FormatValue(n, base);
    assert ParseStripped(s, base) == Some(-(n as int));
  }

  lemma FormatValid(n: nat, base: nat)
    requires ValidBase(base)
    ensures ValidDigits(Format(n, base), base)
  {
    var h := Format(n, base);
    assert DigitsOrUnderscores(h, base);
    assert forall i :: 0 <= i < |h| ==> h[i] != '_' by {
      forall i | 0 <= i < |h| ensures h[i] != '_' { assert IsDigit(h[i], base); }
    }
  }

  /** `int` ignores surrounding white space: `int(format(n, 'x') + pad, 16) == n` for any
      ASCII white-space `pad`, such as the CRLF ending a line. */
  lemma ParseFormatPadded(n: nat, base: nat, pad: string)
    requires ValidBase(base) && AllWs(pad, true)
    ensures ParseInt(Format(n, base) + pad, base) == Some(n)
  {
    var h := Format(n, base);
    assert !IsWs(h[0], true) && !IsWs(h[|h| - 1], true) by {
      assert IsDigit(h[0], base) && IsDigit(h[|h| - 1], base);
    }
    LStripPadded([], h + pad, true);
    assert [] + (h + pad) == h + pad;
    RStripPadded(h, pad, true);
    NoWsStrip(h);
    ParseFormat(n, base);
  }

  lemma NoWsStrip(s: string)
    requires s != [] && !IsWs(s[0], true) && !IsWs(s[|s| - 1], true)
    ensures StripBy(s, true) == s
  {
    assert LStrip(s, true) == s;
  }
}
