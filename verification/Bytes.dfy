/** Byte strings, 32-byte words and addresses as the contracts and the enclave hold them. */
module Bytes {
  import Radix

  type byte = x: nat | x < 256

  type Bytes = seq<byte>

  type Word = b: Bytes | |b| == 32 witness seq(32, _ => 0)

  type Address = b: Bytes | |b| == 20 witness seq(20, _ => 0)

  /** Bytes in a word. */
  const WORD_SIZE: nat := 32

  const UINT256_LIMIT: int := Radix.Pow(256, WORD_SIZE)

  function ZeroBytes(count: nat): (zeros: Bytes)
    ensures |zeros| == count
    ensures forall i :: 0 <= i < count ==> zeros[i] == 0
  {
    seq(count, _ => 0)
  }

  const ZERO_WORD: Word := ZeroBytes(32)

  const ZERO_ADDRESS: Address := ZeroBytes(20)

  /** A number as a big-endian 32-byte word, reduced modulo 2^256. */
  function Uint(n: nat): (w: Word) {
    Radix.Digits(n, 256, WORD_SIZE)
  }

  function ToNat(b: Bytes): nat {
    Radix.Value(b, 256)
  }

  lemma UintRoundTrip(n: nat)
    requires n < UINT256_LIMIT
    ensures ToNat(Uint(n)) == n
  {
    Radix.ValueOfDigits(n, 256, WORD_SIZE);
  }

  lemma WordRoundTrip(w: Word)
    ensures ToNat(w) < UINT256_LIMIT && Uint(ToNat(w)) == w
  {
    Radix.DigitsOfValue(w, 256);
  }

  /** The bytes of an ASCII literal. */
  function Ascii(s: string): (b: Bytes)
    ensures |b| == |s|
  {
    seq(|s|, i requires 0 <= i < |s| => if s[i] < '\U{0100}' then s[i] as int else 0)
  }

  /** Text left-aligned in 32 bytes, as bytes32("...") produces it. */
  function AsciiWord(s: string): Word
    requires |s| <= 32
  {
    Ascii(s) + ZeroBytes(32 - |s|)
  }

  /** Two concatenations agree only if their equally long left parts and their right parts agree. */
  lemma SplitEqual(a: Bytes, b: Bytes, c: Bytes, d: Bytes)
    requires |a| == |c| && a + b == c + d
    ensures a == c && b == d
  {
    assert a == (a + b)[..|a|] == (c + d)[..|c|] == c;
    assert b == (a + b)[|a|..] == (c + d)[|c|..] == d;
  }

  lemma ConcatAssociative<T>(a: seq<T>, b: seq<T>, c: seq<T>)
    ensures a + (b + c) == a + b + c
  {
  }
}
