/** Printing token amounts: the command-line printer drops trailing zeros, the page prints
    every decimal place. Both are read back by the same reader. */
module Units {
  import opened Wrappers
  import Radix

  function DigitChar(d: nat): (c: char)
    requires d < 10
    ensures '0' <= c <= '9' && CharDigit(c) == d
  {
    "0123456789"[d]
  }

  function CharDigit(c: char): (d: nat)
    requires '0' <= c <= '9'
    ensures d < 10
  {
    c as int - '0' as int
  }

  predicate IsNumeral(s: string) {
    forall i :: 0 <= i < |s| ==> '0' <= s[i] <= '9'
  }

  function Text(digits: seq<nat>): (s: string)
    requires forall i :: 0 <= i < |digits| ==> digits[i] < 10
    ensures |s| == |digits| && IsNumeral(s)
    ensures forall i :: 0 <= i < |s| ==> s[i] == DigitChar(digits[i])
  {
    seq(|digits|, i requires 0 <= i < |digits| => DigitChar(digits[i]))
  }

  function DigitsOf(s: string): (digits: seq<nat>)
    requires IsNumeral(s)
    ensures |digits| == |s| && forall i :: 0 <= i < |s| ==> digits[i] == CharDigit(s[i])
    ensures forall i :: 0 <= i < |s| ==> digits[i] < 10
  {
    seq(|s|, i requires 0 <= i < |s| => CharDigit(s[i]))
  }

  lemma DigitsOfText(digits: seq<nat>)
    requires forall i :: 0 <= i < |digits| ==> digits[i] < 10
    ensures DigitsOf(Text(digits)) == digits
  {
  }

  lemma TextOfDigits(s: string)
    requires IsNumeral(s)
    ensures Text(DigitsOf(s)) == s
  {
    forall i | 0 <= i < |s| ensures DigitChar(CharDigit(s[i])) == s[i] {
    }
  }

  // ---- the printers

  /** A number in decimal, without leading zeros. */
  function Decimal(n: nat): (s: string)
    ensures IsNumeral(s) && |s| > 0
  {
    Text(Radix.Shortest(n, 10))
  }

  function LeftPad(s: string, width: nat): string {
    if |s| >= width then s else seq(width - |s|, _ => '0') + s
  }

  function TrimZeros(s: string): (t: string)
    ensures t <= s
  {
    if s != "" && s[|s| - 1] == '0' then TrimZeros(s[..|s| - 1]) else s
  }

  /** The printer of the command-line tools. */
  function FormatUnits(amount: Option<nat>, decimals: nat): string {
    match amount
    case None => "<nil>"
    case Some(n) =>
      Radix.PowPositive(10, decimals);
      var scale := Radix.Pow(10, decimals);
      var quotient: nat, remainder: nat := n / scale, n % scale;
      if remainder == 0 then Decimal(quotient)
      else Decimal(quotient) + "." + TrimZeros(LeftPad(Decimal(remainder), decimals))
  }

  /** The printer of the page. */
  function FmtUnits(value: nat, decimals: nat): string {
    Radix.PowPositive(10, decimals);
    var scale := Radix.Pow(10, decimals);
    Decimal(value / scale) + "." + LeftPad(Decimal(value % scale), decimals)
  }

  // ---- the reader

  /** The decimal fraction mantissa / 10^places. */
  datatype Reading = Reading(mantissa: nat, places: nat)

  /** Where the first point is, or the length of the text. */
  function Point(text: string): (k: nat)
    ensures k <= |text| && (k < |text| ==> text[k] == '.')
    ensures forall i :: 0 <= i < k ==> text[i] != '.'
  {
    if text == "" || text[0] == '.' then 0 else 1 + Point(text[1..])
  }

  function Whole(text: string): string {
    text[..Point(text)]
  }

  function Fraction(text: string): string {
    if Point(text) == |text| then "" else text[Point(text) + 1..]
  }

  function Read(text: string): Option<Reading> {
    if Whole(text) != "" && IsNumeral(Whole(text) + Fraction(text)) then
      Some(Reading(Radix.Value(DigitsOf(Whole(text) + Fraction(text)), 10), |Fraction(text)|))
    else None
  }

  /** The text is a decimal number whose value, scaled by 10^decimals, is n. */
  predicate Denotes(text: string, n: nat, decimals: nat) {
    && Read(text).Some?
    && Read(text).value.mantissa * Radix.Pow(10, decimals) == n * Radix.Pow(10, Read(text).value.places)
  }

  /** No leading zero, no point without a fraction behind it, no zero at the end of a fraction. */
  predicate Tidy(text: string) {
    && (|Whole(text)| > 1 ==> Whole(text)[0] != '0')
    && (Point(text) < |text| ==> Fraction(text) != "" && text[|text| - 1] != '0')
  }

  lemma {:induction false} PointAt(text: string, k: nat)
    requires k <= |text| && (k < |text| ==> text[k] == '.')
    requires forall i :: 0 <= i < k ==> text[i] != '.'
    ensures Point(text) == k
  {
    if k > 0 {
      PointAt(text[1..], k - 1);
    }
  }

  lemma PartsOf(whole: string, fraction: string)
    requires IsNumeral(whole)
    ensures var text := whole + "." + fraction;
            Point(text) == |whole| && Whole(text) == whole && Fraction(text) == fraction
    ensures Point(whole) == |whole| && Whole(whole) == whole && Fraction(whole) == ""
  {
    var text := whole + "." + fraction;
    assert text[|whole|] == '.';
    PointAt(text, |whole|);
    PointAt(whole, |whole|);
  }

  // ---- the page's text denotes the amount

  lemma TextOfPadded(k: nat, s: seq<nat>)
    requires forall i :: 0 <= i < |s| ==> s[i] < 10
    ensures Text(Radix.Zeros(k) + s) == seq(k, _ => '0') + Text(s)
  {
    assert DigitChar(0) == '0';
    forall i | 0 <= i < k + |s| ensures Text(Radix.Zeros(k) + s)[i] == (seq(k, _ => '0') + Text(s))[i] {
    }
  }

  /** A remainder of at most `width` digits, padded, is its fixed-width form. */
  lemma PaddedIsFixedWidth(n: nat, width: nat)
    requires width > 0 && n < Radix.Pow(10, width)
    ensures LeftPad(Decimal(n), width) == Text(Radix.Digits(n, 10, width))
  {
    hide Radix.Pow, Radix.Digits, Radix.Shortest, Radix.Zeros, Text;
    Radix.ShortestPadded(n, 10, width);
    var s := Radix.Shortest(n, 10);
    TextOfPadded(width - |s|, s);
    if |s| == width {
      assert Radix.Zeros(0) + s == s;
    }
  }

  lemma ReadOfDigits(w: seq<nat>, f: seq<nat>)
    requires |w| > 0 && forall i :: 0 <= i < |w| ==> w[i] < 10
    requires forall i :: 0 <= i < |f| ==> f[i] < 10
    ensures Read(Text(w) + "." + Text(f))
            == Some(Reading(Radix.Value(w, 10) * Radix.Pow(10, |f|) + Radix.Value(f, 10), |f|))
  {
    hide *;
    DigitsOfJoined(w, f);
    ReadOfParts(Text(w), Text(f));
    Radix.ValueOfConcat(w, f, 10);
  }

  lemma ReadOfParts(whole: string, fraction: string)
    requires whole != "" && IsNumeral(whole + fraction)
    ensures Read(whole + "." + fraction) == Some(Reading(Radix.Value(DigitsOf(whole + fraction), 10), |fraction|))
  {
    hide Radix.Value, Point;
    assert forall i :: 0 <= i < |whole| ==> whole[i] == (whole + fraction)[i];
    PartsOf(whole, fraction);
    hide Whole, Fraction;
  }

  lemma DigitsOfJoined(w: seq<nat>, f: seq<nat>)
    requires forall i :: 0 <= i < |w| ==> w[i] < 10
    requires forall i :: 0 <= i < |f| ==> f[i] < 10
    ensures IsNumeral(Text(w) + Text(f)) && DigitsOf(Text(w) + Text(f)) == w + f
  {
    var s := Text(w) + Text(f);
    forall i | 0 <= i < |s| ensures '0' <= s[i] <= '9' && CharDigit(s[i]) == (w + f)[i] {
    }
  }

  lemma FmtUnitsDenotes(n: nat, decimals: nat)
    ensures Denotes(FmtUnits(n, decimals), n, decimals)
  {
    hide Denotes;
    if decimals == 0 {
      WithoutDecimals(n);
    } else {
      WithDecimals(n, decimals);
    }
  }

  lemma WithDecimals(n: nat, decimals: nat)
    requires decimals > 0
    ensures Denotes(FmtUnits(n, decimals), n, decimals)
  {
    hide Radix.Value, Radix.Digits, Radix.Shortest, Radix.Pow, LeftPad, Read;
    Radix.PowPositive(10, decimals);
    var scale := Radix.Pow(10, decimals);
    Radix.DivisionFacts(n, scale);
    var q: nat, r: nat := n / scale, n % scale;
    PaddedIsFixedWidth(r, decimals);
    ReadOfDigits(Radix.Shortest(q, 10), Radix.Digits(r, 10, decimals));
    Radix.ValueOfShortest(q, 10);
    Radix.ValueOfDigits(r, 10, decimals);
  }

  /** With no decimals the page still prints a point and a zero. */
  lemma WithoutDecimals(n: nat)
    ensures FmtUnits(n, 0) == Decimal(n) + ".0" && Denotes(FmtUnits(n, 0), n, 0)
  {
    hide Read;
    assert Radix.Pow(10, 0) == 1 && n / 1 == n && n % 1 == 0;
    assert Radix.Shortest(0, 10) == [0];
    assert Decimal(0) == Text([0]) == "0";
    assert FmtUnits(n, 0) == Decimal(n) + "." + "0" == Decimal(n) + ".0";
    ReadOfDigits(Radix.Shortest(n, 10), [0]);
    Radix.ValueOfShortest(n, 10);
    assert Radix.Value([0], 10) == 0 by { Radix.ValueOfAppend([], 0, 10); assert [] + [0] == [0]; }
    assert Radix.Pow(10, 1) == 10 * Radix.Pow(10, 0) == 10;
  }

  /** The page prints every decimal place and no more exactly when the token has any. */
  lemma FractionIsWholeIff(n: nat, decimals: nat)
    ensures |Fraction(FmtUnits(n, decimals))| == decimals <==> decimals > 0
  {
    if decimals == 0 {
      WithoutDecimals(n);
      assert Decimal(n) + ".0" == Decimal(n) + "." + "0";
      PartsOf(Decimal(n), "0");
    } else {
      hide Radix.Digits, Radix.Shortest, Radix.Pow, LeftPad, Fraction, Whole, Point;
      Radix.PowPositive(10, decimals);
      var scale := Radix.Pow(10, decimals);
      Radix.DivisionFacts(n, scale);
      var r: nat := n % scale;
      PaddedIsFixedWidth(r, decimals);
      PartsOf(Decimal(n / scale), LeftPad(Decimal(r), decimals));
    }
  }

  // ---- dropping zeros keeps the value

  lemma DroppingAZero(whole: string, fraction: string, n: nat, decimals: nat)
    requires whole != "" && IsNumeral(whole) && IsNumeral(fraction)
    requires Denotes(whole + "." + (fraction + "0"), n, decimals)
    ensures Denotes(whole + "." + fraction, n, decimals)
  {
    hide Read, Radix.Value, Radix.Pow;
    var w, f := DigitsOf(whole), DigitsOf(fraction);
    TextOfDigits(whole);
    TextOfDigits(fraction);
    assert Text(f + [0]) == fraction + "0" by { assert DigitChar(0) == '0'; }
    ReadOfDigits(w, f);
    ReadOfDigits(w, f + [0]);
    Radix.ValueOfConcat(w, f, 10);
    Radix.ValueOfConcat(w, f + [0], 10);
    assert w + (f + [0]) == (w + f) + [0];
    Radix.ValueOfAppend(w + f, 0, 10);
    TimesTen(|f|);
    CancelTen(Radix.Value(w + f, 10), Radix.Pow(10, decimals), n, Radix.Pow(10, |f|));
  }

  lemma TimesTen(k: nat)
    ensures Radix.Pow(10, k + 1) == 10 * Radix.Pow(10, k)
  {
  }

  lemma CancelTen(m: nat, scale: nat, n: nat, p: nat)
    requires (m * 10 + 0) * scale == n * (10 * p)
    ensures m * scale == n * p
  {
    assert (m * 10) * scale == 10 * (m * scale);
    assert n * (10 * p) == 10 * (n * p);
  }

  lemma {:induction false} TrimmingKeepsTheValue(whole: string, fraction: string, n: nat, decimals: nat)
    requires whole != "" && IsNumeral(whole) && IsNumeral(fraction)
    requires Denotes(whole + "." + fraction, n, decimals)
    ensures Denotes(whole + "." + TrimZeros(fraction), n, decimals)
  {
    hide Denotes;
    if fraction != "" && fraction[|fraction| - 1] == '0' {
      var front := fraction[..|fraction| - 1];
      assert fraction == front + "0";
      DroppingAZero(whole, front, n, decimals);
      TrimmingKeepsTheValue(whole, front, n, decimals);
    }
  }

  lemma {:induction false} TrimmedToNothing(s: string)
    requires IsNumeral(s) && TrimZeros(s) == ""
    ensures Radix.Value(DigitsOf(s), 10) == 0
  {
    if s != "" {
      var front := s[..|s| - 1];
      TrimmedToNothing(front);
      assert DigitsOf(s)[..|s| - 1] == DigitsOf(front);
    }
  }

  lemma {:induction false} TrimEndsInNonZero(s: string)
    ensures var t := TrimZeros(s); t == "" || t[|t| - 1] != '0'
  {
    if s != "" && s[|s| - 1] == '0' {
      TrimEndsInNonZero(s[..|s| - 1]);
    }
  }

  lemma {:induction false} TrimOfZeros(s: string)
    requires forall i :: 0 <= i < |s| ==> s[i] == '0'
    ensures TrimZeros(s) == ""
  {
    if s != "" {
      TrimOfZeros(s[..|s| - 1]);
    }
  }

  // ---- the command-line text

  /** The page's text with trailing zeros and then a bare point dropped. */
  function Tidied(text: string): string {
    var trimmed := TrimZeros(text);
    if trimmed != "" && trimmed[|trimmed| - 1] == '.' then trimmed[..|trimmed| - 1] else trimmed
  }

  lemma {:induction false} TrimStopsAtThePoint(whole: string, fraction: string)
    ensures TrimZeros(whole + "." + fraction) == whole + "." + TrimZeros(fraction)
  {
    var text := whole + "." + fraction;
    if fraction != "" && fraction[|fraction| - 1] == '0' {
      assert text[..|text| - 1] == whole + "." + fraction[..|fraction| - 1];
      TrimStopsAtThePoint(whole, fraction[..|fraction| - 1]);
    } else if fraction == "" {
      assert text[|text| - 1] == '.';
    }
  }

  /** A zero remainder, at any width, is trimmed away; any other leaves a digit. */
  lemma TrimmedRemainder(r: nat, decimals: nat)
    requires r < Radix.Pow(10, decimals)
    ensures IsNumeral(LeftPad(Decimal(r), decimals))
    ensures TrimZeros(LeftPad(Decimal(r), decimals)) == "" <==> r == 0
  {
    var fraction := LeftPad(Decimal(r), decimals);
    if r == 0 {
      assert Decimal(0) == "0";
      TrimOfZeros(fraction);
    } else {
      assert decimals > 0;
      PaddedIsFixedWidth(r, decimals);
      DigitsOfText(Radix.Digits(r, 10, decimals));
      Radix.ValueOfDigits(r, 10, decimals);
      if TrimZeros(fraction) == "" {
        TrimmedToNothing(fraction);
      }
    }
  }

  lemma TidiedParts(whole: string, fraction: string)
    requires IsNumeral(fraction)
    ensures Tidied(whole + "." + fraction)
            == if TrimZeros(fraction) == "" then whole else whole + "." + TrimZeros(fraction)
  {
    TrimStopsAtThePoint(whole, fraction);
    hide TrimZeros;
    var kept := TrimZeros(fraction);
    var trimmed := whole + "." + kept;
    if kept == "" {
      assert trimmed == whole + ".";
      assert trimmed[..|trimmed| - 1] == whole;
    } else {
      assert trimmed[|trimmed| - 1] == kept[|kept| - 1] == fraction[|kept| - 1];
    }
  }

  /** The two printers agree up to trailing zeros and a bare point. */
  lemma PrintersAgree(n: nat, decimals: nat)
    ensures FormatUnits(Some(n), decimals) == Tidied(FmtUnits(n, decimals))
  {
    hide Tidied, TrimZeros, LeftPad, Decimal, IsNumeral, Radix.Pow;
    Radix.PowPositive(10, decimals);
    var scale := Radix.Pow(10, decimals);
    Radix.DivisionFacts(n, scale);
    TrimmedRemainder(n % scale, decimals);
    TidiedParts(Decimal(n / scale), LeftPad(Decimal(n % scale), decimals));
  }

  lemma FormatUnitsIsTidyAndExact(n: nat, decimals: nat)
    ensures Tidy(FormatUnits(Some(n), decimals)) && Denotes(FormatUnits(Some(n), decimals), n, decimals)
  {
    Radix.PowPositive(10, decimals);
    var scale := Radix.Pow(10, decimals);
    Radix.DivisionFacts(n, scale);
    var whole, fraction := Decimal(n / scale), LeftPad(Decimal(n % scale), decimals);
    FmtUnitsDenotes(n, decimals);
    TrimmedRemainder(n % scale, decimals);
    TrimmingKeepsTheValue(whole, fraction, n, decimals);
    TrimEndsInNonZero(fraction);
    PartsOf(whole, TrimZeros(fraction));
    NoLeadingZero(n / scale);
    if n % scale == 0 {
      assert whole + "." + TrimZeros(fraction) == whole + ".";
      assert whole + "" == whole;
    }
  }

  lemma NoLeadingZero(n: nat)
    ensures |Decimal(n)| > 1 ==> Decimal(n)[0] != '0'
  {
    Radix.ShortestHasNoLeadingZero(n, 10);
    assert DigitChar(0) == '0';
  }

  // ---- no other tidy text denotes the amount

  lemma TextFromItsParts(text: string)
    ensures text == if Point(text) == |text| then Whole(text) else Whole(text) + "." + Fraction(text)
  {
    var k := Point(text);
    if k < |text| {
      JoinAt(text, k);
    }
  }

  lemma JoinAt(text: string, k: nat)
    requires k < |text| && text[k] == '.'
    ensures text == text[..k] + "." + text[k + 1..]
  {
  }

  lemma TenPower(small: nat, large: nat)
    requires small < large
    ensures Radix.Pow(10, large) == Radix.Pow(10, small) * (10 * Radix.Pow(10, large - small - 1))
    decreases large
  {
    if small < large - 1 {
      TenPower(small, large - 1);
      Regroup(Radix.Pow(10, small), Radix.Pow(10, large - small - 2));
    }
  }

  lemma Regroup(a: nat, b: nat)
    ensures 10 * (a * (10 * b)) == a * (10 * (10 * b))
  {
    assert a * (10 * (10 * b)) == (a * (10 * b)) * 10;
  }

  /** Equal values with a longer fraction: the longer mantissa ends in zero. */
  lemma LongerEndsInZero(m1: nat, k1: nat, m2: nat, k2: nat, n: nat, decimals: nat)
    requires k1 < k2
    requires m1 * Radix.Pow(10, decimals) == n * Radix.Pow(10, k1)
    requires m2 * Radix.Pow(10, decimals) == n * Radix.Pow(10, k2)
    ensures m2 % 10 == 0
  {
    var scale, p, q := Radix.Pow(10, decimals), Radix.Pow(10, k1), Radix.Pow(10, k2 - k1 - 1);
    Radix.PowPositive(10, decimals);
    TenPower(k1, k2);
    CrossMultiply(m1, m2, scale, n, p, q);
  }

  lemma CrossMultiply(m1: nat, m2: nat, scale: nat, n: nat, p: nat, q: nat)
    requires scale > 0 && m1 * scale == n * p && m2 * scale == n * (p * (10 * q))
    ensures m2 % 10 == 0
  {
    assert n * (p * (10 * q)) == (n * p) * (10 * q);
    assert (m1 * scale) * (10 * q) == (m1 * (10 * q)) * scale;
    Cancel(m2, m1 * (10 * q), scale);
    assert m2 == 10 * (m1 * q);
  }

  lemma Cancel(a: nat, b: nat, scale: nat)
    requires scale > 0 && a * scale == b * scale
    ensures a == b
  {
    if a < b {
      SmallerProduct(a, b, scale);
    } else if b < a {
      SmallerProduct(b, a, scale);
    }
  }

  lemma SmallerProduct(a: nat, b: nat, scale: nat)
    requires a < b && scale > 0
    ensures a * scale < b * scale
  {
    Radix.MultiplyMonotone(a + 1, b, scale);
  }

  /** The last digit of a tidy text with a fraction is the last digit of its mantissa. */
  lemma TidyMantissa(text: string)
    requires Tidy(text) && Read(text).Some? && Fraction(text) != ""
    ensures Read(text).value.mantissa % 10 != 0
  {
    var s := Whole(text) + Fraction(text);
    var digits := DigitsOf(s);
    assert s[|s| - 1] == text[|text| - 1];
    assert digits[|digits| - 1] > 0;
    Radix.DivideAppended(Radix.Value(digits[..|digits| - 1], 10), 10, digits[|digits| - 1]);
  }

  lemma SameReading(a: string, b: string, n: nat, decimals: nat)
    requires Tidy(a) && Denotes(a, n, decimals) && Tidy(b) && Denotes(b, n, decimals)
    ensures Read(a) == Read(b)
  {
    hide Read, Radix.Pow, Radix.Value, Point, Whole, Fraction, Tidy;
    var x, y := Read(a).value, Read(b).value;
    NoLongerFraction(a, b, n, decimals);
    NoLongerFraction(b, a, n, decimals);
    Radix.PowPositive(10, decimals);
    Cancel(x.mantissa, y.mantissa, Radix.Pow(10, decimals));
  }

  lemma NoLongerFraction(a: string, b: string, n: nat, decimals: nat)
    requires Denotes(a, n, decimals) && Tidy(b) && Denotes(b, n, decimals)
    ensures Read(b).value.places <= Read(a).value.places
  {
    var x, y := Read(a).value, Read(b).value;
    PlacesAreTheFraction(b);
    hide Read, Radix.Pow, Radix.Value, Point, Whole, Fraction, Tidy;
    if x.places < y.places {
      TidyMantissa(b);
      LongerEndsInZero(x.mantissa, x.places, y.mantissa, y.places, n, decimals);
      assert false;
    }
  }

  lemma PlacesAreTheFraction(b: string)
    requires Read(b).Some?
    ensures Read(b).value.places == |Fraction(b)|
  {
  }

  /** What a readable text reads as, from its two parts. */
  lemma SplitNumeral(a: string)
    requires Read(a).Some?
    ensures IsNumeral(Whole(a)) && IsNumeral(Fraction(a)) && Whole(a) != ""
    ensures Read(a).value.places == |Fraction(a)|
    ensures Read(a).value.mantissa
            == Radix.Value(DigitsOf(Whole(a)), 10) * Radix.Pow(10, |Fraction(a)|) + Radix.Value(DigitsOf(Fraction(a)), 10)
  {
    hide Radix.Value, Radix.Pow, Whole, Fraction;
    var s := Whole(a) + Fraction(a);
    PartsOfNumeral(Whole(a), Fraction(a));
    Radix.ValueOfConcat(DigitsOf(Whole(a)), DigitsOf(Fraction(a)), 10);
  }

  lemma PartsOfNumeral(w: string, f: string)
    requires IsNumeral(w + f)
    ensures IsNumeral(w) && IsNumeral(f) && DigitsOf(w + f) == DigitsOf(w) + DigitsOf(f)
  {
    assert forall i :: 0 <= i < |w| ==> (w + f)[i] == w[i];
    assert forall i :: 0 <= i < |f| ==> (w + f)[|w| + i] == f[i];
  }

  /** Two numerals of one length and one value are the same text. */
  lemma SameLengthSameValue(a: string, b: string)
    requires IsNumeral(a) && IsNumeral(b) && |a| == |b|
    requires Radix.Value(DigitsOf(a), 10) == Radix.Value(DigitsOf(b), 10)
    ensures a == b
  {
    Radix.DigitsOfValue(DigitsOf(a), 10);
    Radix.DigitsOfValue(DigitsOf(b), 10);
    TextOfDigits(a);
    TextOfDigits(b);
  }

  /** Two numerals without leading zeros and of one value are the same text. */
  lemma SameWhole(a: string, b: string)
    requires IsNumeral(a) && a != "" && (|a| > 1 ==> a[0] != '0')
    requires IsNumeral(b) && b != "" && (|b| > 1 ==> b[0] != '0')
    requires Radix.Value(DigitsOf(a), 10) == Radix.Value(DigitsOf(b), 10)
    ensures a == b
  {
    Radix.ShortestOfValue(DigitsOf(a), 10);
    Radix.ShortestOfValue(DigitsOf(b), 10);
    TextOfDigits(a);
    TextOfDigits(b);
  }

  lemma SameParts(wa: nat, fa: nat, wb: nat, fb: nat, p: nat)
    requires fa < p && fb < p && wa * p + fa == wb * p + fb
    ensures wa == wb && fa == fb
  {
    Radix.DivideAppended(wa, p, fa);
    Radix.DivideAppended(wb, p, fb);
  }

  /** A tidy text is determined by what it reads as. */
  lemma TidyTextIsItsReading(a: string, b: string)
    requires Tidy(a) && Tidy(b) && Read(a).Some? && Read(a) == Read(b)
    ensures a == b
  {
    hide Radix.Value, Radix.Pow, Radix.Digits, Point;
    SplitNumeral(a);
    SplitNumeral(b);
    TextFromItsParts(a);
    TextFromItsParts(b);
    hide Whole, Fraction, Read;
    var wa, fa := DigitsOf(Whole(a)), DigitsOf(Fraction(a));
    var wb, fb := DigitsOf(Whole(b)), DigitsOf(Fraction(b));
    Radix.DigitsOfValue(fa, 10);
    Radix.DigitsOfValue(fb, 10);
    SameParts(Radix.Value(wa, 10), Radix.Value(fa, 10), Radix.Value(wb, 10), Radix.Value(fb, 10), Radix.Pow(10, |fa|));
    SameWhole(Whole(a), Whole(b));
    SameLengthSameValue(Fraction(a), Fraction(b));
  }

  /** The printed text is the one tidy text that denotes the amount. */
  lemma FormatUnitsIsTheTidyText(text: string, n: nat, decimals: nat)
    ensures text == FormatUnits(Some(n), decimals) <==> Tidy(text) && Denotes(text, n, decimals)
  {
    hide FormatUnits, Tidy, Read;
    FormatUnitsIsTidyAndExact(n, decimals);
    if Tidy(text) && Denotes(text, n, decimals) {
      SameReading(text, FormatUnits(Some(n), decimals), n, decimals);
      TidyTextIsItsReading(text, FormatUnits(Some(n), decimals));
    }
  }

  /** Amounts of one token are printed apart. */
  lemma PrintedAmountsDiffer(a: nat, b: nat, decimals: nat)
    ensures FormatUnits(Some(a), decimals) == FormatUnits(Some(b), decimals) ==> a == b
    ensures FmtUnits(a, decimals) == FmtUnits(b, decimals) ==> a == b
  {
    hide FormatUnits, FmtUnits, Read;
    FormatUnitsIsTidyAndExact(a, decimals);
    FormatUnitsIsTidyAndExact(b, decimals);
    FmtUnitsDenotes(a, decimals);
    FmtUnitsDenotes(b, decimals);
    if FormatUnits(Some(a), decimals) == FormatUnits(Some(b), decimals) {
      SameAmount(FormatUnits(Some(a), decimals), a, b, decimals);
    }
    if FmtUnits(a, decimals) == FmtUnits(b, decimals) {
      SameAmount(FmtUnits(a, decimals), a, b, decimals);
    }
  }

  lemma SameAmount(text: string, a: nat, b: nat, decimals: nat)
    requires Denotes(text, a, decimals) && Denotes(text, b, decimals)
    ensures a == b
  {
    Radix.PowPositive(10, Read(text).value.places);
    Cancel(a, b, Radix.Pow(10, Read(text).value.places));
  }
}
