/** The `_parse_price` helper shared (as three identical copies) by the
    HTML scrapers: commas are removed, then the first match of
    `\$?\s*([0-9]+(?:\.[0-9]{1,2})?)` is read as an amount. The model
    scans for the match by hand and returns the amount in cents. */
module PriceText {
  import opened Wrappers
  import opened Text
  import opened Numbers
  import Seqs

  /** A match of the price pattern in comma-free text `t`: the integer
      digits are `t[start..end]`; when `fracLen > 0`, `t[end]` is the point
      and the `fracLen` characters after it are the fractional digits. */
  datatype PriceMatch = PriceMatch(start: nat, end: nat, fracLen: nat)

  /** The leftmost, greedy match of the pattern, stated declaratively. The
      optional `$` and whitespace before the digits never change which
      digits the group captures, so the capture starts at the first digit. */
  predicate IsPriceMatch(t: string, m: PriceMatch) {
    && m.start < m.end <= |t|
    && (forall j | 0 <= j < m.start :: !IsDigit(t[j]))
    && AllDigits(t[m.start..m.end])
    && (m.end == |t| || !IsDigit(t[m.end]))
    && m.fracLen <= 2
    && (m.fracLen > 0 ==> m.end + 1 + m.fracLen <= |t| && t[m.end] == '.' && AllDigits(t[m.end + 1..m.end + 1 + m.fracLen]))
    && (m.fracLen == 0 ==> !(m.end + 1 < |t| && t[m.end] == '.' && IsDigit(t[m.end + 1])))
    && (m.fracLen == 1 ==> !(m.end + 2 < |t| && IsDigit(t[m.end + 2])))
  }

  /** Number of fractional digits the optional group `(?:\.[0-9]{1,2})?`
      takes right after the integer digits ending at `end`. */
  function FracLength(t: string, end: nat): (n: nat)
    requires end <= |t|
    ensures n <= 2
  {
    if end + 1 < |t| && t[end] == '.' && IsDigit(t[end + 1]) then
      if end + 2 < |t| && IsDigit(t[end + 2]) then 2 else 1
    else 0
  }

  /** The regex search, as a scanner: first digit, maximal digit run, up to two decimals. */
  function FindPrice(t: string): (r: Option<PriceMatch>)
    ensures r.None? <==> forall i | 0 <= i < |t| :: !IsDigit(t[i])
    ensures r.Some? ==> IsPriceMatch(t, r.value)
  {
    var start := Seqs.FirstWhere(t, IsDigit);
    if start == |t| then None
    else
      var m := ScanFrom(t, start);
      Some(m)
  }

  /** The match the scanner builds from the first digit at `start`. */
  function ScanFrom(t: string, start: nat): (m: PriceMatch)
    requires start < |t| && IsDigit(t[start])
    requires forall j | 0 <= j < start :: !IsDigit(t[j])
    ensures IsPriceMatch(t, m)
  {
    var end := start + LeadingDigits(t[start..]);
    assert t[start..end] == t[start..][..end - start];
    FracLengthMatches(t, end);
    PriceMatch(start, end, FracLength(t, end))
  }

  /** The fractional part the scanner takes satisfies the pattern's optional group. */
  lemma FracLengthMatches(t: string, end: nat)
    requires end <= |t|
    ensures var n := FracLength(t, end);
            && (n > 0 ==> end + 1 + n <= |t| && t[end] == '.' && AllDigits(t[end + 1..end + 1 + n]))
            && (n == 0 ==> !(end + 1 < |t| && t[end] == '.' && IsDigit(t[end + 1])))
            && (n == 1 ==> !(end + 2 < |t| && IsDigit(t[end + 2])))
  {
    var n := FracLength(t, end);
    if n == 1 {
      assert t[end + 1..end + 2] == [t[end + 1]];
    } else if n == 2 {
      assert t[end + 1..end + 3] == [t[end + 1], t[end + 2]];
    }
  }

  /** The pattern has at most one leftmost greedy match. */
  lemma PriceMatchUnique(t: string, m1: PriceMatch, m2: PriceMatch)
    requires IsPriceMatch(t, m1) && IsPriceMatch(t, m2)
    ensures m1 == m2
  {
    assert IsDigit(t[m1.start..m1.end][0]) && IsDigit(t[m2.start..m2.end][0]);
    assert m1.start == m2.start;
    assert m1.end == m2.end;
    if m1.fracLen > 0 {
      assert IsDigit(t[m1.end + 1..m1.end + 1 + m1.fracLen][0]);
    }
    if m2.fracLen > 0 {
      assert IsDigit(t[m2.end + 1..m2.end + 1 + m2.fracLen][0]);
    }
    if m1.fracLen == 2 {
      assert IsDigit(t[m1.end + 1..m1.end + 1 + m1.fracLen][1]);
    }
    if m2.fracLen == 2 {
      assert IsDigit(t[m2.end + 1..m2.end + 1 + m2.fracLen][1]);
    }
  }

  /** Any match satisfying the declarative description is the one the scanner finds. */
  lemma ParsePriceByMatch(text: string, m: PriceMatch)
    requires text != []
    requires IsPriceMatch(RemoveAll(text, ','), m)
    ensures ParsePrice(text) == Some(MatchCents(RemoveAll(text, ','), m))
  {
    var t := RemoveAll(text, ',');
    assert IsDigit(t[m.start..m.end][0]);
    PriceMatchUnique(t, FindPrice(t).value, m);
  }

  /** The matched amount in cents: `float(m.group(1))` times 100, exactly. */
  function MatchCents(t: string, m: PriceMatch): nat
    requires IsPriceMatch(t, m)
  {
    DigitsValue(t[m.start..m.end]) * 100
    + (if m.fracLen == 0 then 0
       else if m.fracLen == 1 then DigitValue(t[m.end + 1]) * 10
       else assert IsDigit(t[m.end + 1..m.end + 3][1]);
            DigitValue(t[m.end + 1]) * 10 + DigitValue(t[m.end + 2]))
  }

  /** `_parse_price(text)`, in cents. */
  function ParsePrice(text: string): (r: Option<nat>)
    ensures r.None? <==> forall i | 0 <= i < |RemoveAll(text, ',')| :: !IsDigit(RemoveAll(text, ',')[i])
    ensures r.Some? ==> exists m :: IsPriceMatch(RemoveAll(text, ','), m) && r.value == MatchCents(RemoveAll(text, ','), m)
  {
    if text == [] then None
    else
      var t := RemoveAll(text, ',');
      match FindPrice(t)
      case None => None
      case Some(m) => Some(MatchCents(t, m))
  }

  /** The amount as a price: cents / 100. */
  function CentsToReal(c: nat): (r: real)
    ensures r >= 0.0
    ensures r == 0.0 <==> c == 0
    ensures r * 100.0 == c as real
  {
    c as real / 100.0
  }

  /** A shelf label such as "$12.05". */
  function PriceLabel(c: nat): string {
    "$" + UnsignedCentsText(c)
  }

  lemma LabelMatch(c: nat)
    ensures RemoveAll(PriceLabel(c), ',') == PriceLabel(c)
    ensures IsPriceMatch(PriceLabel(c), PriceMatch(1, 1 + |NatToDigits(c / 100)|, 2))
    ensures MatchCents(PriceLabel(c), PriceMatch(1, 1 + |NatToDigits(c / 100)|, 2)) == c
  {
    var w := NatToDigits(c / 100);
    var m := c % 100;
    var f: string := [DigitChar(m / 10), DigitChar(m % 10)];
    var s := PriceLabel(c);
    assert s == "$" + w + "." + f;
    var pm := PriceMatch(1, 1 + |w|, 2);
    assert s[1..1 + |w|] == w;
    assert s[1 + |w|] == '.';
    assert s[2 + |w|..4 + |w|] == f;
    assert IsPriceMatch(s, pm);
    NatToDigitsValue(c / 100);
    assert MatchCents(s, pm) == (c / 100) * 100 + (m / 10) * 10 + m % 10;
  }

  /** Reading back a label written with two decimals yields its amount. */
  lemma ParsePriceOfLabel(c: nat)
    ensures ParsePrice(PriceLabel(c)) == Some(c)
  {
    LabelMatch(c);
    ParsePriceByMatch(PriceLabel(c), PriceMatch(1, 1 + |NatToDigits(c / 100)|, 2));
  }

  lemma ParsePriceDollars()
    ensures ParsePrice("$5.99") == Some(599)
  {
    assert NatToDigits(5) == "5";
    assert TwoDigits(99) == "99";
    assert PriceLabel(599) == "$5.99";
    ParsePriceOfLabel(599);
  }

  lemma ThousandsRemoved()
    ensures RemoveAll("1,299", ',') == "1299"
  {
    var t := "1,299";
    assert t[0] == '1' && t[1] == ',' && t[2] == '2' && t[3] == '9' && t[4] == '9';
    assert t[1..][1..] == "299";
    assert RemoveAll("299", ',') == "299" by {
      forall i | 0 <= i < 3
        ensures "299"[i] != ','
      {
        assert i == 0 || i == 1 || i == 2;
      }
    }
  }

  lemma ThousandsValue()
    ensures DigitsValue("1299") == 1299
  {
    assert "1299"[..3] == "129";
    assert "129"[..2] == "12";
    assert "12"[..1] == "1";
    assert "1"[..0] == [];
  }

  lemma ThousandsMatch()
    ensures RemoveAll("1,299", ',') == "1299"
    ensures IsPriceMatch("1299", PriceMatch(0, 4, 0))
    ensures MatchCents("1299", PriceMatch(0, 4, 0)) == 129900
  {
    ThousandsRemoved();
    ThousandsValue();
    var t := "1299";
    assert t[0..4] == t;
    assert AllDigits(t) by {
      forall i | 0 <= i < |t|
        ensures IsDigit(t[i])
      {
        assert i == 0 || i == 1 || i == 2 || i == 3;
      }
    }
  }

  /** Commas are removed before matching, so they act as thousands separators. */
  lemma ParsePriceThousands()
    ensures ParsePrice("1,299") == Some(129900)
  {
    ThousandsMatch();
    ParsePriceByMatch("1,299", PriceMatch(0, 4, 0));
  }

  lemma TruncatesRemoved()
    ensures RemoveAll("5.999", ',') == "5.999"
  {
    var t := "5.999";
    forall i | 0 <= i < |t|
      ensures t[i] != ','
    {
      assert i == 0 || i == 1 || i == 2 || i == 3 || i == 4;
    }
  }

  lemma TruncatesMatch()
    ensures RemoveAll("5.999", ',') == "5.999"
    ensures IsPriceMatch("5.999", PriceMatch(0, 1, 2))
    ensures MatchCents("5.999", PriceMatch(0, 1, 2)) == 599
  {
    TruncatesRemoved();
    var t := "5.999";
    assert t[0] == '5' && t[1] == '.' && t[2] == '9' && t[3] == '9' && t[4] == '9';
    assert t[0..1] == "5";
    assert t[2..4] == "99";
    assert "5"[..0] == [];
    assert AllDigits("5") by {
      forall i | 0 <= i < 1
        ensures IsDigit("5"[i])
      {
        assert i == 0;
      }
    }
    assert AllDigits("99") by {
      forall i | 0 <= i < 2
        ensures IsDigit("99"[i])
      {
        assert i == 0 || i == 1;
      }
    }
  }

  /** A third decimal is ignored, not rounded. */
  lemma ParsePriceTruncates()
    ensures ParsePrice("5.999") == Some(599)
  {
    TruncatesMatch();
    ParsePriceByMatch("5.999", PriceMatch(0, 1, 2));
  }

  /** Text without a digit has no price. */
  lemma ParsePriceNoDigits()
    ensures ParsePrice("free") == None
  {
    var t := "free";
    assert t[0] == 'f' && t[1] == 'r' && t[2] == 'e' && t[3] == 'e';
    assert ',' !in t;
    assert RemoveAll(t, ',') == t;
    assert !IsDigit(t[0]) && !IsDigit(t[1]) && !IsDigit(t[2]) && !IsDigit(t[3]);
    assert forall i | 0 <= i < |t| :: !IsDigit(t[i]) by {
      forall i | 0 <= i < |t|
        ensures !IsDigit(t[i])
      {
        assert i == 0 || i == 1 || i == 2 || i == 3;
      }
    }
  }

  lemma ParsePriceEmpty()
    ensures ParsePrice("") == None
  {
  }
}
