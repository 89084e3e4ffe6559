/** Positional notation: numbers written as big-endian digit strings. Bytes are digits
    in base 256, hexadecimal text is digits in base 16, printed amounts are digits in base 10. */
module Radix {

  function Pow(base: nat, exponent: nat): nat {
    if exponent == 0 then 1 else base * Pow(base, exponent - 1)
  }

  /** The last `width` digits of `n`, most significant first. */
  function Digits(n: nat, base: nat, width: nat): (digits: seq<nat>)
    requires base > 1
    ensures |digits| == width
    ensures forall i :: 0 <= i < width ==> digits[i] < base
    decreases width
  {
    if width == 0 then [] else Digits(n / base, base, width - 1) + [n % base]
  }

  function Value(digits: seq<nat>, base: nat): nat {
    if digits == [] then 0
    else Value(digits[..|digits| - 1], base) * base + digits[|digits| - 1]
  }

  /** The shortest non-empty digit string of `n`: what printing a number produces. */
  function Shortest(n: nat, base: nat): (digits: seq<nat>)
    requires base > 1
    ensures |digits| > 0
    ensures forall i :: 0 <= i < |digits| ==> digits[i] < base
  {
    if n < base then [n] else QuotientIsSmaller(n, base); Shortest(n / base, base) + [n % base]
  }

  lemma QuotientIsSmaller(n: nat, base: nat)
    requires base > 1 && n > 0
    ensures n / base < n
  {
    DivisionFacts(n, base);
    if n / base >= n {
      MultiplyMonotone(2, base, n / base);
      assert false;
    }
  }

  lemma DivisionFacts(n: nat, base: nat)
    requires base > 0
    ensures 0 <= n / base && 0 <= n % base < base && n == base * (n / base) + n % base
  {
  }

  lemma MultiplyMonotone(a: nat, b: nat, factor: nat)
    requires a <= b
    ensures a * factor <= b * factor
    ensures factor * a <= factor * b
  {
  }

  lemma QuotientBound(n: nat, base: nat, bound: nat)
    requires base > 0
    ensures n / base < bound <==> n < base * bound
  {
    DivisionFacts(n, base);
    if n / base < bound {
      MultiplyMonotone(n / base + 1, bound, base);
    } else {
      MultiplyMonotone(bound, n / base, base);
    }
  }

  lemma {:induction false} PowPositive(base: nat, exponent: nat)
    requires base > 0
    ensures Pow(base, exponent) > 0
  {
    if exponent > 0 {
      PowPositive(base, exponent - 1);
    }
  }

  lemma {:induction false} PowMonotone(base: nat, low: nat, high: nat)
    requires base > 0 && low <= high
    ensures Pow(base, low) <= Pow(base, high)
  {
    if low < high {
      PowMonotone(base, low, high - 1);
      MultiplyMonotone(1, base, Pow(base, high - 1));
    }
  }

  lemma ValueOfAppend(front: seq<nat>, last: nat, base: nat)
    ensures Value(front + [last], base) == Value(front, base) * base + last
  {
    assert (front + [last])[..|front|] == front;
  }

  /** A number that fits reads back unchanged. */
  lemma {:induction false} ValueOfDigits(n: nat, base: nat, width: nat)
    requires base > 1 && n < Pow(base, width)
    ensures Value(Digits(n, base, width), base) == n
    decreases width
  {
    if width > 0 {
      QuotientFits(n, base, width);
      ValueOfDigits(n / base, base, width - 1);
      AppendRemainder(Digits(n / base, base, width - 1), n, base);
    }
  }

  lemma QuotientFits(n: nat, base: nat, width: nat)
    requires base > 0 && width > 0 && n < Pow(base, width)
    ensures 0 <= n / base < Pow(base, width - 1)
  {
    DivisionFacts(n, base);
    QuotientBound(n, base, Pow(base, width - 1));
  }

  lemma AppendRemainder(front: seq<nat>, n: nat, base: nat)
    requires base > 0 && Value(front, base) == n / base
    ensures n % base >= 0 && Value(front + [n % base], base) == n
  {
    DivisionFacts(n, base);
    ValueOfAppend(front, n % base, base);
  }

  /** A digit string is recovered from its value and its length. */
  lemma {:induction false} DigitsOfValue(digits: seq<nat>, base: nat)
    requires base > 1
    requires forall i :: 0 <= i < |digits| ==> digits[i] < base
    ensures Value(digits, base) < Pow(base, |digits|)
    ensures Digits(Value(digits, base), base, |digits|) == digits
  {
    if digits != [] {
      var front, last := digits[..|digits| - 1], digits[|digits| - 1];
      DigitsOfValue(front, base);
      DivideAppended(Value(front, base), base, last);
      AppendedBound(Value(front, base), base, last, Pow(base, |front|));
      assert digits == front + [last];
    }
  }

  lemma DivideAppended(v: nat, base: nat, digit: nat)
    requires digit < base
    ensures (v * base + digit) / base == v
    ensures (v * base + digit) % base == digit
  {
    var n := v * base + digit;
    DivisionFacts(n, base);
    if n / base < v {
      MultiplyMonotone(n / base + 1, v, base);
      assert false;
    } else if n / base > v {
      MultiplyMonotone(v + 1, n / base, base);
      assert false;
    }
  }

  lemma AppendedBound(v: nat, base: nat, digit: nat, bound: nat)
    requires digit < base && v < bound
    ensures v * base + digit < base * bound
  {
    MultiplyMonotone(v + 1, bound, base);
  }

  /** Padding the shortest form on the left with zeros gives the fixed-width form. */
  lemma {:induction false} ShortestPadded(n: nat, base: nat, width: nat)
    requires base > 1
    ensures |Shortest(n, base)| <= width <==> width > 0 && n < Pow(base, width)
    ensures |Shortest(n, base)| <= width ==> Digits(n, base, width) == Zeros(width - |Shortest(n, base)|) + Shortest(n, base)
    decreases width
  {
    if width > 0 {
      PowPositive(base, width - 1);
      assert Pow(base, width) == base * Pow(base, width - 1);
      if n < base {
        assert n / base == 0;
        DigitsOfZero(base, width - 1);
        assert base <= base * Pow(base, width - 1);
      } else {
        QuotientBound(n, base, Pow(base, width - 1));
        ShortestPadded(n / base, base, width - 1);
        if width == 1 { assert Pow(base, 0) == 1; }
      }
    }
  }

  function Zeros(count: nat): (zeros: seq<nat>)
    ensures |zeros| == count
    ensures forall i :: 0 <= i < count ==> zeros[i] == 0
  {
    seq(count, _ => 0)
  }

  lemma {:induction false} DigitsOfZero(base: nat, width: nat)
    requires base > 1
    ensures Digits(0, base, width) == Zeros(width)
  {
    if width > 0 {
      DigitsOfZero(base, width - 1);
    }
  }

  /** The shortest form reads back to the number. */
  lemma {:induction false} ValueOfShortest(n: nat, base: nat)
    requires base > 1
    ensures Value(Shortest(n, base), base) == n
  {
    if n >= base {
      QuotientIsSmaller(n, base);
      ValueOfShortest(n / base, base);
      AppendRemainder(Shortest(n / base, base), n, base);
    } else {
      assert [n][..0] == [];
    }
  }

  /** Reading a concatenation: the left part is shifted by the width of the right part. */
  lemma {:induction false} ValueOfConcat(left: seq<nat>, right: seq<nat>, base: nat)
    ensures Value(left + right, base) == Value(left, base) * Pow(base, |right|) + Value(right, base)
  {
    if right == [] {
      assert left + right == left;
    } else {
      var front, last := right[..|right| - 1], right[|right| - 1];
      ValueOfConcat(left, front, base);
      assert (left + right)[..|left + right| - 1] == left + front;
      ShiftOnce(Value(left, base), Pow(base, |front|), Value(front, base), base);
    }
  }

  lemma ShiftOnce(l: nat, p: nat, f: nat, base: nat)
    ensures (l * p + f) * base == l * (base * p) + f * base
  {
    assert l * p * base == l * (base * p);
  }

  lemma {:induction false} ShortestHasNoLeadingZero(n: nat, base: nat)
    requires base > 1
    ensures |Shortest(n, base)| > 1 ==> Shortest(n, base)[0] != 0
    ensures n > 0 ==> Shortest(n, base)[0] != 0
  {
    if n >= base {
      QuotientIsSmaller(n, base);
      QuotientBound(n, base, 1);
      ShortestHasNoLeadingZero(n / base, base);
    }
  }

  /** Digits without a leading zero are the shortest form of their value. */
  lemma {:induction false} ShortestOfValue(digits: seq<nat>, base: nat)
    requires base > 1 && |digits| > 0
    requires forall i :: 0 <= i < |digits| ==> digits[i] < base
    requires |digits| > 1 ==> digits[0] != 0
    ensures Shortest(Value(digits, base), base) == digits
    ensures digits[0] != 0 ==> Value(digits, base) > 0
  {
    var front, last := digits[..|digits| - 1], digits[|digits| - 1];
    assert digits == front + [last];
    if front == [] {
      assert Value(digits, base) == last;
    } else {
      ShortestOfValue(front, base);
      DivideAppended(Value(front, base), base, last);
      MultiplyMonotone(1, Value(front, base), base);
    }
  }
}
