/** The static tuple (bytes32, uint256, address), 96 bytes, that carries both an evaluation
    request and a decision: one encoder and the three decoders that read it. */
module DecisionCodec {
  import opened Wrappers
  import opened Bytes
  import AbiSpec

  const TUPLE_SIZE: nat := 96

  datatype Tuple = Tuple(policyId: Word, value: nat, payoutTo: Address)

  datatype CodecError = ValueMissing | ValueNegative | ValueTooLarge | WrongLength(length: nat) | DirtyAddress

  /** abi.encode(policyId, value, payoutTo). */
  function Layout(policyId: Word, value: nat, payoutTo: Address): (data: Bytes)
    ensures |data| == TUPLE_SIZE
  {
    policyId + Uint(value) + (ZeroBytes(12) + payoutTo)
  }

  /** The enclave's encoder with its guards. */
  function Encode(policyId: Word, value: Option<int>, payoutTo: Address): Result<Bytes, CodecError> {
    if value.None? then Err(ValueMissing)
    else if value.value < 0 then Err(ValueNegative)
    else if value.value >= UINT256_LIMIT then Err(ValueTooLarge)
    else Ok(Layout(policyId, value.value, payoutTo))
  }

  /** The three words of the tuple, the address being the last twenty bytes of its word. */
  function Words(data: Bytes): Tuple
    requires |data| == TUPLE_SIZE
  {
    Tuple(data[..32], ToNat(data[32..64]), data[76..])
  }

  /** The enclave's decoder: exact length, padding ignored. */
  function Decode(data: Bytes): Result<Tuple, CodecError> {
    if |data| != TUPLE_SIZE then Err(WrongLength(|data|)) else Ok(Words(data))
  }

  /** The contract's abi.decode, which reverts on a padded address that is not clean. */
  function AbiDecode(data: Bytes): Result<Tuple, CodecError>
    requires |data| == TUPLE_SIZE
  {
    if data[64..76] != ZeroBytes(12) then Err(DirtyAddress) else Ok(Words(data))
  }

  datatype DecisionError = ActionFailed(status: nat) | BadLength(length: nat)

  /** The relayer's reading of a decision, next to the signer recovery it makes. */
  function DecodeDecision(status: nat, data: Bytes): Result<Tuple, DecisionError> {
    if status != 1 then Err(ActionFailed(status))
    else if |data| != TUPLE_SIZE then Err(BadLength(|data|))
    else Ok(Tuple(data[0..32], ToNat(data[32..64]), LastTwenty(data[64..96])))
  }

  /** An address read from a byte string of any length at least twenty keeps its tail. */
  function LastTwenty(b: Bytes): Address
    requires |b| >= 20
  {
    b[|b| - 20..]
  }

  lemma LayoutParts(policyId: Word, value: nat, payoutTo: Address)
    ensures var data := Layout(policyId, value, payoutTo);
            data[..32] == policyId && data[32..64] == Uint(value)
            && data[64..76] == ZeroBytes(12) && data[76..] == payoutTo
  {
  }

  /** Whatever the encoder accepts, all three decoders read back exactly. */
  lemma EncodedTupleReadsBackEverywhere(policyId: Word, value: int, payoutTo: Address)
    ensures Encode(policyId, Some(value), payoutTo).Ok? <==> 0 <= value < UINT256_LIMIT
    ensures 0 <= value < UINT256_LIMIT ==>
              var data := Encode(policyId, Some(value), payoutTo).value;
              var tuple := Tuple(policyId, value, payoutTo);
              && Decode(data) == Ok(tuple)
              && |data| == TUPLE_SIZE && AbiDecode(data) == Ok(tuple)
              && DecodeDecision(1, data) == Ok(tuple)
  {
    if 0 <= value < UINT256_LIMIT {
      LayoutParts(policyId, value, payoutTo);
      UintRoundTrip(value);
      var data := Layout(policyId, value, payoutTo);
      assert data[64..96][12..] == data[76..];
    }
  }

  /** The relayer and the enclave read any 96 bytes alike; the contract either rejects them
      or agrees, and it accepts exactly the bytes that re-encode to themselves. */
  lemma DecodersAgree(data: Bytes)
    requires |data| == TUPLE_SIZE
    ensures DecodeDecision(1, data).Ok? && Decode(data) == Ok(DecodeDecision(1, data).value)
    ensures var tuple := Decode(data).value;
            && (AbiDecode(data) == Ok(tuple) || AbiDecode(data) == Err(DirtyAddress))
            && (AbiDecode(data).Ok? <==> Encode(tuple.policyId, Some(tuple.value), tuple.payoutTo) == Ok(data))
  {
    assert data[64..96][12..] == data[76..] && data[0..32] == data[..32];
    WordRoundTrip(data[32..64]);
    LayoutOfWords(data);
  }

  /** Re-encoding what was read from 96 bytes replaces the address padding by zeros. */
  lemma LayoutOfWords(data: Bytes)
    requires |data| == TUPLE_SIZE
    ensures var tuple := Words(data);
            && Layout(tuple.policyId, tuple.value, tuple.payoutTo) == data[..64] + (ZeroBytes(12) + data[76..])
            && (Layout(tuple.policyId, tuple.value, tuple.payoutTo) == data <==> data[64..76] == ZeroBytes(12))
  {
    hide ZeroBytes, Uint, ToNat;
    WordRoundTrip(data[32..64]);
    assert data[..32] + data[32..64] == data[..64];
    var again := data[..64] + (ZeroBytes(12) + data[76..]);
    assert data == data[..64] + (data[64..76] + data[76..]);
    assert again[64..76] == ZeroBytes(12);
  }

  /** The tuple is the standard encoding of (bytes32, uint256, address). */
  lemma LayoutIsStandard(policyId: Word, value: nat, payoutTo: Address)
    ensures Layout(policyId, value, payoutTo)
            == AbiSpec.EncAll([AbiSpec.Static(policyId), AbiSpec.Static(Uint(value)), AbiSpec.Static(ZeroBytes(12) + payoutTo)])
  {
    AbiSpec.ThreeStatics(policyId, Uint(value), ZeroBytes(12) + payoutTo);
  }

  /** What each codec accepts, and why it refuses. */
  lemma CodecsAcceptIff(data: Bytes, status: nat, policyId: Word, value: Option<int>, payoutTo: Address)
    ensures Decode(data).Ok? <==> |data| == 96
    ensures DecodeDecision(status, data).Ok? <==> status == 1 && |data| == 96
    ensures DecodeDecision(status, data) == Err(ActionFailed(status)) <==> status != 1
    ensures Encode(policyId, value, payoutTo).Ok? <==> value.Some? && 0 <= value.value < UINT256_LIMIT
    ensures Encode(policyId, value, payoutTo) == Err(ValueMissing) <==> value.None?
    ensures Encode(policyId, value, payoutTo) == Err(ValueNegative) <==> value.Some? && value.value < 0
  {
  }
}
