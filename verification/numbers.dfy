/** Decimal digit strings and the decimal text Python's float() and
    Decimal() accept: optional surrounding whitespace, an optional sign,
    digits with an optional fractional part. */
module Numbers {
  import opened Wrappers
  import opened Text

  predicate AllDigits(s: string) {
    forall i | 0 <= i < |s| :: IsDigit(s[i])
  }

  /** The number a digit string denotes. */
  function DigitsValue(s: string): nat
    requires AllDigits(s)
  {
    if s == [] then 0 else DigitsValue(s[..|s| - 1]) * 10 + DigitValue(s[|s| - 1])
  }

  /** The shortest decimal numeral of `n`. */
  function NatToDigits(n: nat): (s: string)
    ensures s != [] && AllDigits(s)
  {
    if n < 10 then [DigitChar(n)] else NatToDigits(n / 10) + [DigitChar(n % 10)]
  }

  lemma {:induction false} NatToDigitsValue(n: nat)
    ensures DigitsValue(NatToDigits(n)) == n
  {
    if n >= 10 {
      var s := NatToDigits(n);
      assert s[..|s| - 1] == NatToDigits(n / 10);
      NatToDigitsValue(n / 10);
    }
  }

  /** Number of leading ASCII digits of `s`. */
  function LeadingDigits(s: string): (n: nat)
    ensures n <= |s|
    ensures AllDigits(s[..n])
    ensures n < |s| ==> !IsDigit(s[n])
  {
    if s == [] || !IsDigit(s[0]) then 0
    else
      var m := LeadingDigits(s[1..]);
      assert s[..1 + m] == [s[0]] + s[1..][..m];
      1 + m
  }

  lemma {:induction false} LeadingDigitsOfAppend(d: string, rest: string)
    requires AllDigits(d)
    requires rest == [] || !IsDigit(rest[0])
    ensures LeadingDigits(d + rest) == |d|
  {
    if d == [] {
      assert d + rest == rest;
    } else {
      assert (d + rest)[0] == d[0];
      assert (d + rest)[1..] == d[1..] + rest;
      LeadingDigitsOfAppend(d[1..], rest);
    }
  }

  /** The value of the digits `frac` after a decimal point: `0.frac`. */
  function FracValue(frac: string): (v: real)
    requires AllDigits(frac)
    ensures 0.0 <= v < 1.0
  {
    if frac == [] then 0.0 else (DigitValue(frac[0]) as real + FracValue(frac[1..])) / 10.0
  }

  /** The value of `whole.frac`. */
  function PointedValue(whole: string, frac: string): real
    requires AllDigits(whole) && AllDigits(frac)
  {
    DigitsValue(whole) as real + FracValue(frac)
  }

  /** The unsigned part of a decimal literal: `123`, `123.`, `123.45` or `.45`. */
  function ParseUnsigned(s: string): (r: Option<real>)
    ensures r.Some? ==> r.value >= 0.0
  {
    var n1 := LeadingDigits(s);
    if n1 == |s| then
      if n1 > 0 then Some(DigitsValue(s) as real) else None
    else if s[n1] != '.' then None
    else
      var frac := s[n1 + 1..];
      var n2 := LeadingDigits(frac);
      if n2 < |frac| || (n1 == 0 && n2 == 0) then None
      else Some(PointedValue(s[..n1], frac[..n2]))
  }

  /** A non-empty digit string converts to its integer value; the empty string does not convert. */
  lemma ParseUnsignedDigits(s: string)
    requires AllDigits(s)
    ensures ParseUnsigned(s) == if s == [] then None else Some(DigitsValue(s) as real)
  {
    assert LeadingDigits(s) == |s|;
    assert s[..|s|] == s;
  }

  /** Digits, a point at `i`, and digits convert to the whole part plus the
      fraction, unless both are empty (a lone "."). */
  lemma ParseUnsignedPoint(s: string, i: nat)
    requires i < |s| && s[i] == '.' && AllDigits(s[..i]) && AllDigits(s[i + 1..])
    ensures ParseUnsigned(s) == if |s| == 1 then None else Some(PointedValue(s[..i], s[i + 1..]))
  {
    assert LeadingDigits(s) == i;
    var frac := s[i + 1..];
    assert LeadingDigits(frac) == |frac|;
    assert frac[..|frac|] == frac;
  }

  /** Only those two shapes convert. */
  lemma ParseUnsignedShape(s: string)
    ensures ParseUnsigned(s).Some? ==>
      AllDigits(s) || exists i | 0 <= i < |s| :: s[i] == '.' && AllDigits(s[..i]) && AllDigits(s[i + 1..])
  {
    var n := LeadingDigits(s);
    if ParseUnsigned(s).Some? && n < |s| {
      var frac := s[n + 1..];
      assert frac[..LeadingDigits(frac)] == frac;
      assert s[n] == '.' && AllDigits(s[..n]) && AllDigits(s[n + 1..]);
    } else if n == |s| {
      assert s[..n] == s;
    }
  }

  /** Python's float(s) / Decimal(s) on a string, restricted to plain
      decimal notation; None where the conversion would raise. */
  function ParseDecimal(s: string): Option<real>
  {
    var t := Strip(s);
    if t != [] && t[0] == '-' then
      match ParseUnsigned(t[1..])
      case Some(v) => Some(-v)
      case None => None
    else if t != [] && t[0] == '+' then ParseUnsigned(t[1..])
    else ParseUnsigned(t)
  }

  lemma ParseUnsignedPointed(w: string, f: string)
    requires w != [] && AllDigits(w) && AllDigits(f)
    ensures ParseUnsigned(w + "." + f) == Some(PointedValue(w, f))
  {
    var s := w + "." + f;
    LeadingDigitsOfAppend(w, "." + f);
    assert s == w + ("." + f);
    assert s[..|w|] == w;
    assert s[|w| + 1..] == f;
    LeadingDigitsOfAppend(f, []);
    assert f + [] == f;
    assert f[..|f|] == f;
  }

  /** The two digits of `m`, with a leading zero below 10. */
  function TwoDigits(m: nat): (s: string)
    requires m < 100
    ensures |s| == 2 && AllDigits(s)
  {
    [DigitChar(m / 10), DigitChar(m % 10)]
  }

  lemma TwoDigitsValue(m: nat)
    requires m < 100
    ensures FracValue(TwoDigits(m)) == m as real / 100.0
  {
    var f := TwoDigits(m);
    assert f[1..] == [f[1]];
    assert f[1..][1..] == [];
    assert FracValue(f[1..]) == (m % 10) as real / 10.0;
    assert m == (m / 10) * 10 + m % 10;
  }

  lemma CentsSplit(a: nat)
    ensures (a / 100) as real + (a % 100) as real / 100.0 == a as real / 100.0
  {
    assert a == (a / 100) * 100 + a % 100;
  }

  /** Two-decimal text for an amount of cents. */
  function UnsignedCentsText(a: nat): (s: string)
    ensures s != [] && IsDigit(s[0]) && IsDigit(s[|s| - 1])
  {
    NatToDigits(a / 100) + "." + TwoDigits(a % 100)
  }

  lemma CentsTextUnsigned(a: nat)
    ensures ParseUnsigned(UnsignedCentsText(a)) == Some(a as real / 100.0)
  {
    var w, f := NatToDigits(a / 100), TwoDigits(a % 100);
    ParseUnsignedPointed(w, f);
    NatToDigitsValue(a / 100);
    TwoDigitsValue(a % 100);
    CentsSplit(a);
  }

  lemma ParseDecimalOfUnsigned(u: string)
    requires u != [] && IsDigit(u[0]) && IsDigit(u[|u| - 1])
    ensures ParseDecimal(u) == ParseUnsigned(u)
  {
    StripOfStripped(u);
  }

  lemma ParseDecimalOfNegated(u: string, v: real)
    requires u != [] && IsDigit(u[|u| - 1])
    requires ParseUnsigned(u) == Some(v)
    ensures ParseDecimal("-" + u) == Some(-v)
  {
    var s := "-" + u;
    assert s[1..] == u && s[0] == '-';
    assert s[|s| - 1] == u[|u| - 1];
    StripOfStripped(s);
  }

  /** Every amount of cents, written with two decimals, converts back to itself. */
  lemma CentsTextRoundTrip(a: nat)
    ensures ParseDecimal(UnsignedCentsText(a)) == Some(a as real / 100.0)
  {
    CentsTextUnsigned(a);
    ParseDecimalOfUnsigned(UnsignedCentsText(a));
  }
}
