/**
 * Number text as the C library writes and reads it in main.c:
 * `%d` and `%.2f` in `fprintf`, `atoi` and `atof` when loading.
 * Integers are unbounded here: overflow of `int` is not modelled.
 */
module Numbers {

  predicate IsDigit(c: char) { '0' <= c <= '9' }

  /** `isspace` in the "C" locale: space, tab, newline, vertical tab, form feed, carriage return. */
  predicate IsSpace(c: char) { c == ' ' || 9 <= c as int <= 13 }

  predicate AllDigits(s: string) { forall i :: 0 <= i < |s| ==> IsDigit(s[i]) }

  /** Characters `%d` and `%.2f` can produce. */
  predicate NumberChars(s: string) {
    forall i :: 0 <= i < |s| ==> IsDigit(s[i]) || s[i] == '-' || s[i] == '.'
  }

  function DigitChar(d: int): (c: char)
    requires 0 <= d < 10
    ensures IsDigit(c)
  {
    ('0' as int + d) as char
  }

  function DigitValue(c: char): (d: nat)
    requires IsDigit(c)
    ensures d < 10
  {
    c as int - '0' as int
  }

  /** Decimal digits of `n`, most significant first, no leading zeros. */
  function NatToDecimal(n: nat): (s: string)
    ensures 0 < |s| && AllDigits(s)
    ensures IsDigit(s[0])
  {
    if n < 10 then [DigitChar(n)] else NatToDecimal(n / 10) + [DigitChar(n % 10)]
  }

  /** `%d`. */
  function IntToDecimal(n: int): (s: string)
    ensures 0 < |s| && NumberChars(s)
    ensures s[0] == '-' || IsDigit(s[0])
  {
    if n < 0 then "-" + NatToDecimal(-n) else NatToDecimal(n)
  }

  /** Value of a string of decimal digits, most significant first. */
  function DigitsValue(s: string): nat
    requires AllDigits(s)
  {
    if s == [] then 0 else 10 * DigitsValue(s[..|s| - 1]) + DigitValue(s[|s| - 1])
  }

  /** The longest prefix of `s` made of decimal digits. */
  function LeadingDigits(s: string): (p: string)
    ensures |p| <= |s| && p == s[..|p|] && AllDigits(p)
    ensures |p| < |s| ==> !IsDigit(s[|p|])
  {
    if s != [] && IsDigit(s[0]) then [s[0]] + LeadingDigits(s[1..]) else []
  }

  /** `s` without its leading white space. */
  function SkipSpaces(s: string): (t: string)
    ensures |t| <= |s| && t == s[|s| - |t|..]
    ensures t != [] ==> !IsSpace(t[0])
  {
    if s != [] && IsSpace(s[0]) then SkipSpaces(s[1..]) else s
  }

  /**
   * `atoi`: leading white space, an optional sign, then the decimal digits
   * that follow; text without digits there reads as 0.
   */
  function Atoi(s: string): int
  {
    var t := SkipSpaces(s);
    if t != [] && (t[0] == '-' || t[0] == '+') then
      var v: int := DigitsValue(LeadingDigits(t[1..]));
      if t[0] == '-' then -v else v
    else
      DigitsValue(LeadingDigits(t))
  }

  /** Value of the digits after a decimal point: ".d1 d2 …" is (d1 + (d2 + …) / 10) / 10. */
  function FractionValue(d: string): (v: real)
    requires AllDigits(d)
    ensures 0.0 <= v <= 1.0
  {
    if d == [] then 0.0 else (DigitValue(d[0]) as real + FractionValue(d[1..])) / 10.0
  }

  /** Digits, optionally followed by '.' and more digits, read as an exact decimal. */
  function UnsignedDecimal(t: string): real
  {
    var whole := LeadingDigits(t);
    var rest := t[|whole|..];
    if rest != [] && rest[0] == '.' then
      DigitsValue(whole) as real + FractionValue(LeadingDigits(rest[1..]))
    else
      DigitsValue(whole) as real
  }

  /**
   * `atof` on fixed-point text: leading white space, an optional sign, digits,
   * an optional fraction. Exponents, hexadecimal, "inf" and "nan" are not modelled.
   */
  function Atof(s: string): real
  {
    var t := SkipSpaces(s);
    if t != [] && (t[0] == '-' || t[0] == '+') then
      var v := UnsignedDecimal(t[1..]);
      if t[0] == '-' then -v else v
    else
      UnsignedDecimal(t)
  }

  /** Hundredths of `m`, rounded to nearest with halves rounded up. */
  function Hundredths(m: real): (h: nat)
    requires m >= 0.0
    ensures h as real - 0.5 <= m * 100.0 < h as real + 0.5
  {
    (m * 100.0 + 0.5).Floor
  }

  function Fixed2Magnitude(m: real): string
    requires m >= 0.0
  {
    var h := Hundredths(m);
    var f := h % 100;
    NatToDecimal(h / 100) + "." + [DigitChar(f / 10), DigitChar(f % 10)]
  }

  /** `%.2f`: fixed point with two decimals, rounded to the nearest hundredth. */
  function FormatFixed2(w: real): (s: string)
    ensures 0 < |s| && NumberChars(s)
  {
    var s := if w < 0.0 then "-" + Fixed2Magnitude(-w) else Fixed2Magnitude(w);
    assert NumberChars(s) by {
      var m := if w < 0.0 then -w else w;
      var h := Hundredths(m);
      var f := h % 100;
      assert Fixed2Magnitude(m) == NatToDecimal(h / 100) + "." + [DigitChar(f / 10), DigitChar(f % 10)];
    }
    s
  }

  lemma {:induction false} DigitsValueOfDecimal(n: nat)
    ensures DigitsValue(NatToDecimal(n)) == n
  {
    if n >= 10 {
      var s := NatToDecimal(n);
      assert s[..|s| - 1] == NatToDecimal(n / 10);
      DigitsValueOfDecimal(n / 10);
    }
  }

  lemma {:induction false} LeadingDigitsOfDigits(d: string, rest: string)
    requires AllDigits(d)
    requires rest == [] || !IsDigit(rest[0])
    ensures LeadingDigits(d + rest) == d
  {
    if d != [] {
      assert (d + rest)[0] == d[0];
      assert (d + rest)[1..] == d[1..] + rest;
      LeadingDigitsOfDigits(d[1..], rest);
    } else {
      assert d + rest == rest;
    }
  }

  /** What `%d` writes, `atoi` reads back. */
  lemma AtoiOfDecimal(n: int)
    ensures Atoi(IntToDecimal(n)) == n
  {
    var s := IntToDecimal(n);
    assert SkipSpaces(s) == s;
    var m: nat := if n < 0 then -n else n;
    LeadingDigitsOfDigits(NatToDecimal(m), []);
    assert NatToDecimal(m) + [] == NatToDecimal(m);
    DigitsValueOfDecimal(m);
    if n < 0 {
      assert s[1..] == NatToDecimal(m);
    }
  }

  lemma TwoDigitsFraction(f: nat)
    requires f < 100
    ensures FractionValue([DigitChar(f / 10), DigitChar(f % 10)]) == f as real / 100.0
  {
    var a, b := DigitChar(f / 10), DigitChar(f % 10);
    assert [a, b][1..] == [b];
    assert [b][1..] == [];
    assert DigitValue(a) == f / 10 && DigitValue(b) == f % 10;
    assert FractionValue([b]) == DigitValue(b) as real / 10.0;
    assert FractionValue([a, b]) == (DigitValue(a) as real + FractionValue([b])) / 10.0;
    assert f == 10 * (f / 10) + f % 10;
  }

  lemma Fixed2MagnitudeReads(m: real)
    requires m >= 0.0
    ensures UnsignedDecimal(Fixed2Magnitude(m)) == Hundredths(m) as real / 100.0
  {
    var h := Hundredths(m);
    var f := h % 100;
    var whole := NatToDecimal(h / 100);
    var frac := [DigitChar(f / 10), DigitChar(f % 10)];
    var t := Fixed2Magnitude(m);
    assert t == whole + ("." + frac);
    LeadingDigitsOfDigits(whole, "." + frac);
    assert t[|whole|..] == "." + frac;
    assert ("." + frac)[1..] == frac;
    LeadingDigitsOfDigits(frac, []);
    assert frac + [] == frac;
    TwoDigitsFraction(f);
    DigitsValueOfDecimal(h / 100);
    assert h == 100 * (h / 100) + f;
  }

  lemma HundredthsClose(m: real)
    requires m >= 0.0
    ensures -0.005 <= Hundredths(m) as real / 100.0 - m <= 0.005
  {
  }

  /** Text starting with a digit is read by `atof` as it stands. */
  lemma AtofOfDigitsFirst(t: string)
    requires t != [] && IsDigit(t[0])
    ensures Atof(t) == UnsignedDecimal(t)
  {
    assert SkipSpaces(t) == t;
  }

  /** With a '-' before it, such text is read as its negation. */
  lemma AtofOfNegated(t: string)
    requires t != [] && IsDigit(t[0])
    ensures Atof("-" + t) == -UnsignedDecimal(t)
  {
    var s := "-" + t;
    assert SkipSpaces(s) == s;
    assert s[1..] == t;
  }

  /** What `%.2f` writes, `atof` reads as the signed magnitude it printed. */
  lemma Fixed2Sign(w: real)
    ensures Atof(FormatFixed2(w)) ==
      if w < 0.0 then -UnsignedDecimal(Fixed2Magnitude(-w)) else UnsignedDecimal(Fixed2Magnitude(w))
  {
    var m := if w < 0.0 then -w else w;
    var h := Hundredths(m);
    var f := h % 100;
    var whole := NatToDecimal(h / 100);
    var t := Fixed2Magnitude(m);
    assert t == whole + ("." + [DigitChar(f / 10), DigitChar(f % 10)]);
    assert t[0] == whole[0];
    if w < 0.0 {
      AtofOfNegated(t);
    } else {
      AtofOfDigitsFirst(t);
    }
  }

  /** A weight written with `%.2f` reads back within half a hundredth (exact arithmetic). */
  lemma Fixed2ReadsBack(w: real)
    ensures -0.005 <= Atof(FormatFixed2(w)) - w <= 0.005
  {
    var m := if w < 0.0 then -w else w;
    Fixed2Sign(w);
    Fixed2MagnitudeReads(m);
    HundredthsClose(m);
  }
}
