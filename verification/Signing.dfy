/** The digest a TEE signs over an action result, and the recovery of the signer.
    The hash function and ecrecover are parameters: nothing is assumed about them here. */
module Signing {
  import opened Wrappers
  import opened Bytes

  type Hash = Bytes -> Word

  /** The fields of an action result that the signature covers. */
  datatype Signable = Signable(id: Word, status: byte, tag: Bytes, data: Bytes)

  const ACTION_RESULT_PREFIX: Word := AsciiWord("TEE_ACTION_RESULT")

  const MESSAGE_PREFIX: Bytes := [0x19] + Ascii("Ethereum Signed Message:\n32")

  /** abi.encodePacked(keccak256(data), id, keccak256(tag), status). */
  function Packed(keccak: Hash, r: Signable): Bytes {
    keccak(r.data) + r.id + keccak(r.tag) + [r.status]
  }

  /** abi.encode(prefix, chain id, result hash): three static words. */
  function Payload(keccak: Hash, chainId: nat, r: Signable): Bytes {
    ACTION_RESULT_PREFIX + Uint(chainId) + keccak(Packed(keccak, r))
  }

  function SignHash(keccak: Hash, chainId: nat, r: Signable): Word {
    keccak(Payload(keccak, chainId, r))
  }

  function Message(keccak: Hash, chainId: nat, r: Signable): Bytes {
    MESSAGE_PREFIX + SignHash(keccak, chainId, r)
  }

  /** The digest handed to ecrecover. */
  function Digest(keccak: Hash, chainId: nat, r: Signable): Word {
    keccak(Message(keccak, chainId, r))
  }

  predicate Collides(keccak: Hash, x: Bytes, y: Bytes) {
    x != y && keccak(x) == keccak(y)
  }

  /** One of the five hashes taken while signing the two results is a collision. */
  predicate SigningCollision(keccak: Hash, chainA: nat, a: Signable, chainB: nat, b: Signable) {
    || Collides(keccak, a.data, b.data)
    || Collides(keccak, a.tag, b.tag)
    || Collides(keccak, Packed(keccak, a), Packed(keccak, b))
    || Collides(keccak, Payload(keccak, chainA, a), Payload(keccak, chainB, b))
    || Collides(keccak, Message(keccak, chainA, a), Message(keccak, chainB, b))
  }

  /** One digest stands for one decision on one chain: two results with the same digest are the
      same result for the same chain, unless the hash function collides on the signed bytes. */
  lemma DigestIsInjective(keccak: Hash, chainA: nat, a: Signable, chainB: nat, b: Signable)
    requires chainA < UINT256_LIMIT && chainB < UINT256_LIMIT
    requires Digest(keccak, chainA, a) == Digest(keccak, chainB, b)
    requires !SigningCollision(keccak, chainA, a, chainB, b)
    ensures chainA == chainB && a == b
  {
    SplitEqual(MESSAGE_PREFIX, SignHash(keccak, chainA, a), MESSAGE_PREFIX, SignHash(keccak, chainB, b));
    PayloadParts(keccak, chainA, a, chainB, b);
    UintRoundTrip(chainA);
    UintRoundTrip(chainB);
    PackedParts(keccak, a, b);
  }

  lemma PayloadParts(keccak: Hash, chainA: nat, a: Signable, chainB: nat, b: Signable)
    requires Payload(keccak, chainA, a) == Payload(keccak, chainB, b)
    ensures Uint(chainA) == Uint(chainB) && keccak(Packed(keccak, a)) == keccak(Packed(keccak, b))
  {
    var headA, headB := ACTION_RESULT_PREFIX + Uint(chainA), ACTION_RESULT_PREFIX + Uint(chainB);
    SplitEqual(headA, keccak(Packed(keccak, a)), headB, keccak(Packed(keccak, b)));
    SplitEqual(ACTION_RESULT_PREFIX, Uint(chainA), ACTION_RESULT_PREFIX, Uint(chainB));
  }

  lemma PackedParts(keccak: Hash, a: Signable, b: Signable)
    requires Packed(keccak, a) == Packed(keccak, b)
    ensures keccak(a.data) == keccak(b.data) && a.id == b.id
    ensures keccak(a.tag) == keccak(b.tag) && a.status == b.status
  {
    var idA, idB := keccak(a.data) + a.id, keccak(b.data) + b.id;
    SplitEqual(idA + keccak(a.tag), [a.status], idB + keccak(b.tag), [b.status]);
    SplitEqual(idA, keccak(a.tag), idB, keccak(b.tag));
    SplitEqual(keccak(a.data), a.id, keccak(b.data), b.id);
  }

  /** ecrecover: digest, v, r, s to an address, zero when there is none. */
  type Recover = (Word, byte, Word, Word) -> Address

  datatype SignatureError = MalformedSignature

  /** Half the secp256k1 group order, written out in hexadecimal. */
  const HALF_ORDER: nat := 0x7FFFFFFFFFFFFFFFFFFFFFFFFFFFFFFF5D576E7357A4501DDFE92F46681B20A0

  /** Recovery ids 0 and 1 and their converted forms 27 and 28 are both accepted. */
  function NormalisedV(v: byte): byte {
    if v < 27 then v + 27 else v
  }

  /** _recoverTeeId: length, low s, recovery id, and a non-zero signer. */
  function RecoverTeeId(keccak: Hash, recover: Recover, chainId: nat, a: Signable, signature: Bytes)
    : Result<Address, SignatureError>
  {
    if |signature| != 65 then Err(MalformedSignature)
    else
      var r: Word, s: Word, v := signature[0..32], signature[32..64], NormalisedV(signature[64]);
      if ToNat(s) > HALF_ORDER then Err(MalformedSignature)
      else if v != 27 && v != 28 then Err(MalformedSignature)
      else
        var tee := recover(Digest(keccak, chainId, a), v, r, s);
        if tee == ZERO_ADDRESS then Err(MalformedSignature) else Ok(tee)
  }

  // ---- the preimages and the signature, byte by byte

  /** Where every signed field stands: the result is hashed over data hash, id, tag hash and status,
      and what is signed is the standard encoding of prefix, chain id and that hash, behind the
      28-byte header of the signed-message wrapper. */
  lemma PreimageLayout(keccak: Hash, chainId: nat, r: Signable)
    requires chainId < UINT256_LIMIT
    ensures var packed := Packed(keccak, r);
            && |packed| == 97
            && packed[..32] == keccak(r.data) && packed[32..64] == r.id
            && packed[64..96] == keccak(r.tag) && packed[96] == r.status
    ensures var payload := Payload(keccak, chainId, r);
            && |payload| == 96
            && payload[..17] == Ascii("TEE_ACTION_RESULT") && payload[17..32] == ZeroBytes(15)
            && ToNat(payload[32..64]) == chainId
            && payload[64..] == keccak(Packed(keccak, r))
    ensures var message := Message(keccak, chainId, r);
            && |message| == 60 && message[0] == 0x19
            && message[1..28] == Ascii("Ethereum Signed Message:\n32")
            && message[28..] == keccak(Payload(keccak, chainId, r))
  {
    hide Ascii, ZeroBytes;
    UintRoundTrip(chainId);
    var payload := Payload(keccak, chainId, r);
    assert payload[32..64] == Uint(chainId);
  }

  /** A signature is the words r and s and a recovery byte. It recovers a machine exactly when s is in
      the lower half, the byte is 0, 1, 27 or 28, and ecrecover finds a signer for those words. */
  lemma RecoversIff(keccak: Hash, recover: Recover, chainId: nat, a: Signable, r: Word, s: Word, v: byte, tee: Address)
    ensures RecoverTeeId(keccak, recover, chainId, a, r + s + [v]) == Ok(tee) <==>
              && ToNat(s) <= HALF_ORDER
              && (v == 0 || v == 1 || v == 27 || v == 28)
              && tee == recover(Digest(keccak, chainId, a), if v < 27 then v + 27 else v, r, s)
              && tee != ZERO_ADDRESS
  {
    var signature := r + s + [v];
    assert signature[0..32] == r && signature[32..64] == s && signature[64] == v;
  }

  lemma OtherLengthsAreMalformed(keccak: Hash, recover: Recover, chainId: nat, a: Signable, signature: Bytes)
    requires |signature| != 65
    ensures RecoverTeeId(keccak, recover, chainId, a, signature) == Err(MalformedSignature)
  {
  }

  /** The bound on s is half the order of secp256k1, rounded down. */
  lemma HalfOrderIsHalf()
    ensures 2 * HALF_ORDER + 1 == 0xFFFFFFFFFFFFFFFFFFFFFFFFFFFFFFFEBAAEDCE6AF48A03BBFD25E8CD0364141
  {
  }
}
