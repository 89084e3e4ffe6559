/** Hexadecimal text, two digits a byte, as the web page holds calldata. */
module Hex {
  import opened Bytes
  import Radix

  type nibble = x: nat | x < 16

  type Hex = seq<nibble>

  function ToHex(b: Bytes): (h: Hex)
    ensures |h| == 2 * |b|
  {
    if b == [] then [] else [b[0] / 16, b[0] % 16] + ToHex(b[1..])
  }

  /** The bytes written by an even number of digits. */
  function FromHex(h: Hex): (b: Bytes)
    requires |h| % 2 == 0
    ensures |b| == |h| / 2
  {
    if h == [] then []
    else
      var high: nat, low: nat := h[0], h[1];
      [16 * high + low] + FromHex(h[2..])
  }

  lemma {:induction false} ToHexOfFromHex(h: Hex)
    requires |h| % 2 == 0
    ensures ToHex(FromHex(h)) == h
  {
    if h != [] {
      ToHexOfFromHex(h[2..]);
      assert h == [h[0], h[1]] + h[2..];
    }
  }

  lemma FromHexOfToHex(b: Bytes)
    ensures FromHex(ToHex(b)) == b
  {
    ToHexOfFromHex(ToHex(b));
    HexIsInjective(FromHex(ToHex(b)), b);
  }

  function HexValue(h: Hex): nat {
    Radix.Value(h, 16)
  }

  lemma {:induction false} HexConcat(a: Bytes, b: Bytes)
    ensures ToHex(a + b) == ToHex(a) + ToHex(b)
  {
    if a == [] {
      assert a + b == b;
    } else {
      HexConcat(a[1..], b);
      assert (a + b)[1..] == a[1..] + b && (a + b)[0] == a[0];
      var first := [a[0] / 16, a[0] % 16];
      assert first + (ToHex(a[1..]) + ToHex(b)) == first + ToHex(a[1..]) + ToHex(b);
    }
  }

  lemma {:induction false} HexIsInjective(a: Bytes, b: Bytes)
    requires ToHex(a) == ToHex(b)
    ensures a == b
  {
    if a != [] {
      var h := ToHex(a);
      assert |a| == |b|;
      assert h[0] == a[0] / 16 == b[0] / 16 && h[1] == a[0] % 16 == b[0] % 16;
      assert h[2..] == ToHex(a[1..]) == ToHex(b[1..]);
      HexIsInjective(a[1..], b[1..]);
      assert a == [a[0]] + a[1..] && b == [b[0]] + b[1..];
    }
  }

  lemma {:induction false} HexOfZeros(count: nat)
    ensures ToHex(ZeroBytes(count)) == seq(2 * count, _ => 0)
  {
    if count > 0 {
      HexOfZeros(count - 1);
      assert ZeroBytes(count)[1..] == ZeroBytes(count - 1);
    }
  }

  /** Hex digits are base-16 digits of the number whose base-256 digits are the bytes. */
  lemma {:induction false} HexOfDigits(n: nat, width: nat)
    ensures Radix.Digits(n, 16, 2 * width) == ToHex(Radix.Digits(n, 256, width))
    decreases width
  {
    if width > 0 {
      HexOfDigits(n / 256, width - 1);
      HexConcat(Radix.Digits(n / 256, 256, width - 1), [n % 256]);
      TwoHexDigits(n, 2 * width);
    }
  }

  /** The last two hexadecimal digits of a number are its last byte. */
  lemma TwoHexDigits(n: nat, width: nat)
    requires width >= 2
    ensures Radix.Digits(n, 16, width) == Radix.Digits(n / 256, 16, width - 2) + ToHex([n % 256])
  {
    assert n / 16 / 16 == n / 256 && n / 16 % 16 == n % 256 / 16 && n % 16 == n % 256 % 16;
    var front := Radix.Digits(n / 256, 16, width - 2);
    assert Radix.Digits(n / 16, 16, width - 1) == front + [n / 16 % 16];
    assert ToHex([n % 256]) == [n % 256 / 16, n % 256 % 16];
    assert front + [n / 16 % 16] + [n % 16] == front + [n / 16 % 16, n % 16];
  }

  lemma {:induction false} PowSquare(k: nat)
    ensures Radix.Pow(16, 2 * k) == Radix.Pow(256, k)
  {
    if k > 0 {
      PowSquare(k - 1);
      assert Radix.Pow(16, 2 * k) == 16 * Radix.Pow(16, 2 * k - 1) == 16 * (16 * Radix.Pow(16, 2 * k - 2));
    }
  }

  lemma HexValueOfUint(n: nat)
    requires n < UINT256_LIMIT
    ensures HexValue(ToHex(Uint(n))) == n
  {
    HexOfDigits(n, WORD_SIZE);
    PowSquare(WORD_SIZE);
    Radix.ValueOfDigits(n, 16, 2 * WORD_SIZE);
  }
}
