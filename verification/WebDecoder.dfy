/** What the page reads back from contract calls and events: signed coordinates, evaluation
    events, and the ticker string of the payout denomination. */
module WebDecoder {
  import opened Wrappers
  import opened Bytes
  import opened Hex
  import opened AbiSpec
  import opened WebEncoder
  import opened WebCalls

  /** Two's complement over 256 bits; the sign bit is set from 2^255 on. */
  function ToInt(w: Hex): int {
    var v := HexValue(w);
    if 2 * v >= UINT256_LIMIT then v - UINT256_LIMIT else v
  }

  /** An int256 as the contract's event encodes it. */
  function IntWord(i: int): Word
    requires -UINT256_LIMIT <= 2 * i < UINT256_LIMIT
  {
    Uint(if i < 0 then i + UINT256_LIMIT else i)
  }

  lemma SignedWordReadsBack(i: int)
    requires -UINT256_LIMIT <= 2 * i < UINT256_LIMIT
    ensures ToInt(ToHex(IntWord(i))) == i
  {
    HexValueOfUint(if i < 0 then i + UINT256_LIMIT else i);
  }

  function WordAt(data: Hex, index: nat): Hex {
    Slice(data, index * 64, (index + 1) * 64)
  }

  datatype EvaluationEvent = EvaluationEvent(votingRound: nat, latitude: int, longitude: int, rainfall: nat)

  /** The unindexed part of PolicyEvaluationRequested. */
  function DecodeEvaluation(data: Hex): EvaluationEvent {
    EvaluationEvent(HexValue(WordAt(data, 0)), ToInt(WordAt(data, 1)), ToInt(WordAt(data, 2)), HexValue(WordAt(data, 3)))
  }

  function EvaluationLog(e: EvaluationEvent): Bytes
    requires -UINT256_LIMIT <= 2 * e.latitude < UINT256_LIMIT && -UINT256_LIMIT <= 2 * e.longitude < UINT256_LIMIT
  {
    Uint(e.votingRound) + IntWord(e.latitude) + IntWord(e.longitude) + Uint(e.rainfall)
  }

  /** Every event the contract can emit is read back field by field, negative coordinates too. */
  lemma EvaluationEventReadsBack(e: EvaluationEvent)
    requires e.votingRound < UINT256_LIMIT && e.rainfall < UINT256_LIMIT
    requires -UINT256_LIMIT <= 2 * e.latitude < UINT256_LIMIT && -UINT256_LIMIT <= 2 * e.longitude < UINT256_LIMIT
    ensures DecodeEvaluation(ToHex(EvaluationLog(e))) == e
  {
    hide ToHex, Uint, HexValue;
    var a: Bytes, b: Bytes, c: Bytes, d: Bytes := Uint(e.votingRound), IntWord(e.latitude), IntWord(e.longitude), Uint(e.rainfall);
    HexConcat(a + b + c, d);
    HexConcat(a + b, c);
    HexConcat(a, b);
    FourWords(ToHex(a), ToHex(b), ToHex(c), ToHex(d));
    HexValueOfUint(e.votingRound);
    HexValueOfUint(e.rainfall);
    SignedWordReadsBack(e.latitude);
    SignedWordReadsBack(e.longitude);
  }

  lemma FourWords(a: Hex, b: Hex, c: Hex, d: Hex)
    requires |a| == |b| == |c| == |d| == 64
    ensures var data := a + b + c + d;
            WordAt(data, 0) == a && WordAt(data, 1) == b && WordAt(data, 2) == c && WordAt(data, 3) == d
  {
  }

  /** Bytes without the zero ones. */
  function NonZero(b: Bytes): Bytes {
    if b == [] then [] else (if b[0] != 0 then [b[0]] else []) + NonZero(b[1..])
  }

  lemma {:induction false} NonZeroAppend(b: Bytes, last: byte)
    ensures NonZero(b + [last]) == NonZero(b) + if last != 0 then [last] else []
  {
    if b == [] {
      assert b + [last] == [last] && [last][1..] == [];
    } else {
      NonZeroAppend(b[1..], last);
      assert (b + [last])[1..] == b[1..] + [last];
    }
  }

  lemma {:induction false} NonZeroLength(b: Bytes)
    ensures |NonZero(b)| <= |b|
    ensures NonZero(b) == b <==> 0 !in b
  {
    if b != [] {
      NonZeroLength(b[1..]);
      assert b == [b[0]] + b[1..];
    }
  }

  lemma {:induction false} FromHexAppend(h: Hex, high: nibble, low: nibble)
    requires |h| % 2 == 0
    ensures FromHex(h + [high, low]) == FromHex(h) + [16 * high + low]
  {
    var longer := h + [high, low];
    if h == [] {
      assert longer == [high, low] && longer[2..] == [];
    } else {
      FromHexAppend(h[2..], high, low);
      assert longer[2..] == h[2..] + [high, low] && longer[0] == h[0] && longer[1] == h[1];
    }
  }

  /** Two more digits add one byte. */
  lemma NextByte(h: Hex, i: nat)
    requires i + 1 < |h| && i % 2 == 0
    ensures var high: nat, low: nat := h[i], h[i + 1];
            NonZero(FromHex(h[..i + 2]))
            == NonZero(FromHex(h[..i])) + if 16 * high + low != 0 then [16 * high + low] else []
  {
    hide NonZero, FromHex;
    FromHexAppend(h[..i], h[i], h[i + 1]);
    assert h[..i] + [h[i], h[i + 1]] == h[..i + 2];
    var high: nat, low: nat := h[i], h[i + 1];
    NonZeroAppend(FromHex(h[..i]), 16 * high + low);
  }

  /** hexToAscii: one character a byte, zero bytes dropped; a last odd digit is ignored. */
  method HexToAscii(h: Hex) returns (out: Bytes)
    ensures out == NonZero(FromHex(h[..|h| - |h| % 2]))
  {
    out := [];
    assert NonZero(FromHex(h[..0])) == [];
    hide FromHex, NonZero;
    var i := 0;
    while i + 1 < |h|
      invariant 0 <= i <= |h| && i % 2 == 0
      invariant out == NonZero(FromHex(h[..i]))
    {
      NextByte(h, i);
      var high: nat, low: nat := h[i], h[i + 1];
      var code: byte := 16 * high + low;
      if code != 0 {
        out := out + [code];
      }
      i := i + 2;
    }
    assert i == |h| - |h| % 2;
  }

  /** The ABI return blob of payoutDenomination(): a string and a small integer. */
  function Denomination(symbol: Bytes, decimals: byte): Bytes {
    EncAll([Blob(symbol), Static(Uint(decimals))])
  }

  lemma DenominationLayout(symbol: Bytes, decimals: byte)
    ensures ToHex(Denomination(symbol, decimals))
            == [] + (ToHex(Uint(64)) + ToHex(Uint(decimals))) + ToHex(Enc(Blob(symbol)))
  {
    hide ToHex, Uint, Enc;
    var dec := Static(Uint(decimals));
    assert [Blob(symbol), dec] == [Blob(symbol)] + [dec];
    assert [Blob(symbol), dec][1..] == [dec] && [dec][1..] == [];
    StaticFirst(Uint(decimals), [], 64 + |Enc(Blob(symbol))|);
    assert [dec] + [] == [dec];
    assert HeadSize([dec]) == 32 && HeadSize([Blob(symbol), dec]) == 64;
    assert Heads([Blob(symbol), dec], 64) == Uint(64) + Uint(decimals);
    assert Tails([Blob(symbol), dec]) == Enc(Blob(symbol)) + Tails([dec]) == Enc(Blob(symbol));
    HexConcat(Uint(64) + Uint(decimals), Enc(Blob(symbol)));
    HexConcat(Uint(64), Uint(decimals));
  }

  /** readString on that blob finds the symbol's bytes; after hexToAscii the page shows them
      without zero bytes, so it shows the symbol itself exactly when it has none. */
  method ReadDenomination(symbol: Bytes, decimals: byte) returns (shown: Bytes)
    requires |ToHex(Denomination(symbol, decimals))| <= MAX_SAFE
    ensures shown == NonZero(symbol)
    ensures shown == symbol <==> 0 !in symbol
  {
    hide ToHex, FromHex, Denomination, DynamicArgument, NonZero;
    var blob := ToHex(Denomination(symbol, decimals));
    DenominationIsRead(symbol, decimals);
    var chars := DynamicArgument(blob, 0);
    shown := HexToAscii(chars.value);
    assert chars.value[..|chars.value|] == chars.value;
    FromHexOfToHex(symbol);
    NonZeroLength(symbol);
  }

  lemma DenominationIsRead(symbol: Bytes, decimals: byte)
    requires |ToHex(Denomination(symbol, decimals))| <= MAX_SAFE
    ensures DynamicArgument(ToHex(Denomination(symbol, decimals)), 0) == Some(ToHex(symbol))
  {
    hide ToHex, Uint, Enc, Denomination, DynamicArgument, Slice, NumberOf;
    DenominationLayout(symbol, decimals);
    var heads, payload := ToHex(Uint(64)) + ToHex(Uint(decimals)), ToHex(Enc(Blob(symbol)));
    var padding := BlobParts(symbol);
    NumberIsRead(64);
    NumberIsRead(|symbol|);
    WordIsFound([], heads, payload, 0, 0);
    assert heads[64 * 0..64 * (0 + 1)] == ToHex(Uint(64));
    BlobIsFound([] + heads, |[] + heads|, symbol, []);
    assert payload + [] == payload;
    ArgumentIsRead([] + heads + payload, 0, 64, |symbol|);
  }
}
