/** The evaluate call: an attested response is spliced into the proof without being re-encoded. */
module WebProof {
  import opened Wrappers
  import opened Bytes
  import opened Hex
  import opened AbiSpec
  import opened WebEncoder
  import opened WebCalls
  import Radix

  // ---- the spliced response

  /** response_hex with its leading offset word checked and stripped. */
  function ResponseTuple(responseHex: Hex): Option<Hex> {
    if |responseHex| < 64 || HexValue(responseHex[..64]) != 32 then None else Some(responseHex[64..])
  }

  /** A body is found exactly behind the offset word 32. */
  lemma ResponseTupleIff(responseHex: Hex, body: Hex)
    ensures ResponseTuple(responseHex) == Some(body) <==> responseHex == ToHex(Uint(32)) + body
  {
    var lead: Hex := ToHex(Uint(32));
    SafeIsSmall();
    HexValueOfUint(32);
    if ResponseTuple(responseHex) == Some(body) {
      SameWordSameValue(responseHex[..64], lead);
      assert responseHex == responseHex[..64] + responseHex[64..];
    }
    assert (lead + body)[..64] == lead && (lead + body)[64..] == body;
  }

  /** Digit strings of one length and one value are the same. */
  lemma SameWordSameValue(a: Hex, b: Hex)
    requires |a| == |b| && HexValue(a) == HexValue(b)
    ensures a == b
  {
    Radix.DigitsOfValue(a, 16);
    Radix.DigitsOfValue(b, 16);
  }

  /** The attested response is one dynamic argument, so stripping gives exactly its encoding. */
  lemma ResponseTupleIsTheEncoding(response: Value)
    requires IsDynamic(response)
    ensures ResponseTuple(ToHex(EncAll([response]))) == Some(ToHex(Enc(response)))
  {
    hide ToHex, Uint, Enc, HexValue;
    LoneDynamic(response);
    HexConcat(Uint(32), Enc(response));
    SafeIsSmall();
    HexValueOfUint(32);
  }

  function Statics(words: seq<Word>): seq<Value> {
    seq(|words|, i requires 0 <= i < |words| => Static(words[i]))
  }

  function JoinedWords(words: seq<Word>): Bytes {
    if words == [] then [] else words[0] + JoinedWords(words[1..])
  }

  lemma {:induction false} StaticsStandInTheHead(words: seq<Word>, offset: nat)
    ensures Heads(Statics(words), offset) == JoinedWords(words) && Tails(Statics(words)) == []
  {
    if words != [] {
      StaticsStandInTheHead(words[1..], offset);
      assert Statics(words)[1..] == Statics(words[1..]);
      assert Tails(Statics(words)) == [] + Tails(Statics(words)[1..]);
    }
  }

  /** All nodes encoded and joined, or an error if one is not 32 bytes. */
  function EncodedNodes(nodes: seq<Hex>): Option<Hex> {
    if nodes == [] then Some([])
    else if |nodes[0]| != 64 then None
    else
      match EncodedNodes(nodes[1..])
      case None => None
      case Some(rest) => Some(nodes[0] + rest)
  }

  function HexWords(words: seq<Word>): seq<Hex> {
    seq(|words|, i requires 0 <= i < |words| => ToHex(words[i]))
  }

  lemma {:induction false} EncodedNodesAreJoined(words: seq<Word>)
    ensures EncodedNodes(HexWords(words)) == Some(ToHex(JoinedWords(words)))
  {
    if words != [] {
      EncodedNodesAreJoined(words[1..]);
      assert HexWords(words)[1..] == HexWords(words[1..]);
      HexConcat(words[0], JoinedWords(words[1..]));
    }
  }

  /** The merkleProof member: its length and its nodes. */
  function MerklePayload(nodes: seq<Hex>): Option<Hex> {
    match (EncUint(|nodes|), EncodedNodes(nodes))
    case (Some(count), Some(joined)) => Some(count + joined)
    case _ => None
  }

  lemma MerklePayloadIsStandard(words: seq<Word>)
    requires |words| < UINT256_LIMIT
    ensures MerklePayload(HexWords(words)) == Some(ToHex(Enc(Array(Statics(words)))))
  {
    hide ToHex, Uint, EncUint, EncodedNodes, JoinedWords;
    EncUintIsStandard(|words|);
    EncodedNodesAreJoined(words);
    StaticsStandInTheHead(words, HeadSize(Statics(words)));
    assert EncAll(Statics(words)) == JoinedWords(words) + [] == JoinedWords(words);
    HexConcat(Uint(|words|), JoinedWords(words));
  }

  const EVALUATE_SELECTOR: Hex := [10, 3, 12, 4, 6, 1, 8, 3]

  /** (merkleProof, response) as one tuple. */
  function ProofValue(nodes: seq<Word>, response: Value): Value {
    Tuple([Array(Statics(nodes)), response])
  }

  function EvaluateArguments(policyId: Word, payoutTo: Address, nodes: seq<Word>, response: Value): seq<Value> {
    [Static(policyId)] + ([Static(ZeroBytes(12) + payoutTo)] + [ProofValue(nodes, response)])
  }

  method EncodeProof(nodes: seq<Hex>, responseHex: Hex) returns (out: Option<Hex>)
    requires 64 + 32 + 32 * |nodes| + |responseHex| <= MAX_SAFE
    ensures match (MerklePayload(nodes), ResponseTuple(responseHex))
            case (Some(merkle), Some(response)) => out == Some(Laid([merkle, response]))
            case _ => out == None
  {
    var merkle, response := MerklePayload(nodes), ResponseTuple(responseHex);
    if merkle.None? || response.None? {
      return None;
    }
    MerklePayloadLength(nodes);
    JoinedPair(merkle.value, response.value);
    var laid := EncDynamicTuple([merkle.value, response.value]);
    out := Some(laid);
  }

  lemma JoinedPair(a: Hex, b: Hex)
    ensures Joined([a, b]) == a + b
  {
    assert [a, b][1..] == [b] && [b][1..] == [];
    assert Joined([b]) == b + Joined([]) == b;
  }

  lemma {:induction false} EncodedNodesLength(nodes: seq<Hex>)
    ensures EncodedNodes(nodes).Some? ==> |EncodedNodes(nodes).value| == 64 * |nodes|
  {
    if nodes != [] {
      EncodedNodesLength(nodes[1..]);
    }
  }

  lemma MerklePayloadLength(nodes: seq<Hex>)
    ensures MerklePayload(nodes).Some? ==> |MerklePayload(nodes).value| == 64 + 64 * |nodes|
  {
    EncodedNodesLength(nodes);
    EncUintIsStandard(|nodes|);
  }

  lemma {:induction false} NodesIff(nodes: seq<Hex>)
    ensures EncodedNodes(nodes).Some? <==> forall i :: 0 <= i < |nodes| ==> |nodes[i]| == 64
  {
    if nodes != [] {
      NodesIff(nodes[1..]);
      assert nodes == [nodes[0]] + nodes[1..];
    }
  }

  /** The parts of an evaluate call that make calldata: a whole policy id, a whole address, whole
      proof nodes and a response behind the offset word 32. */
  ghost predicate WellFormed(policyId: Hex, payoutTo: Hex, nodes: seq<Hex>, responseHex: Hex) {
    && |policyId| == 64 && |payoutTo| == 40
    && (forall i :: 0 <= i < |nodes| ==> |nodes[i]| == 64)
    && exists body :: responseHex == ToHex(Uint(32)) + body
  }

  lemma WellFormedIff(policyId: Hex, payoutTo: Hex, nodes: seq<Hex>, responseHex: Hex)
    requires |nodes| < UINT256_LIMIT
    ensures WellFormed(policyId, payoutTo, nodes, responseHex) <==>
              && EncBytes32(policyId).Some? && EncAddress(payoutTo).Some?
              && MerklePayload(nodes).Some? && ResponseTuple(responseHex).Some?
  {
    hide ToHex, Uint, EncUint, EncodedNodes, ResponseTuple;
    EncAddressIff(payoutTo);
    NodesIff(nodes);
    EncUintIsStandard(|nodes|);
    if ResponseTuple(responseHex).Some? {
      ResponseTupleIff(responseHex, ResponseTuple(responseHex).value);
    }
    if body :| responseHex == ToHex(Uint(32)) + body {
      ResponseTupleIff(responseHex, body);
    }
  }

  method EncodeEvaluate(policyId: Hex, payoutTo: Hex, nodes: seq<Hex>, responseHex: Hex) returns (out: Option<Hex>)
    requires 64 + 32 + 32 * |nodes| + |responseHex| <= MAX_SAFE
    ensures match (EncBytes32(policyId), EncAddress(payoutTo), MerklePayload(nodes), ResponseTuple(responseHex))
            case (Some(id), Some(to), Some(merkle), Some(response)) =>
              out == Some(EVALUATE_SELECTOR + id + to + ToHex(Uint(96)) + Laid([merkle, response]))
            case _ => out == None
    ensures out.Some? <==> WellFormed(policyId, payoutTo, nodes, responseHex)
  {
    var id, to := EncBytes32(policyId), EncAddress(payoutTo);
    SafeIsSmall();
    WellFormedIff(policyId, payoutTo, nodes, responseHex);
    hide WellFormed, ResponseTuple, MerklePayload, Laid, EncBytes32, EncAddress;
    var proof := EncodeProof(nodes, responseHex);
    EncUintIsStandard(96);
    var offset := EncUint(96);
    if id.None? || to.None? || proof.None? {
      return None;
    }
    out := Some(EVALUATE_SELECTOR + id.value + to.value + offset.value + proof.value);
  }

  /** The splice is canonical: with the attestation's own encoding of a response, the calldata
      is the standard encoding of (policyId, payoutTo, (merkleProof, response)) with that very
      response. */
  method EncodeEvaluateIsCanonical(policyId: Word, payoutTo: Address, nodes: seq<Word>, response: Value)
    returns (calldata: Option<Hex>)
    requires IsDynamic(response)
    requires 64 + 32 + 32 * |nodes| + |ToHex(EncAll([response]))| <= MAX_SAFE
    ensures calldata == Some(EVALUATE_SELECTOR + ToHex(EncAll(EvaluateArguments(policyId, payoutTo, nodes, response))))
  {
    hide ToHex, Uint, Enc, EncAll, EncUint, Laid, MerklePayload, ResponseTuple, HeadSize, Heads, Tails;
    var responseHex := ToHex(EncAll([response]));
    ResponseTupleIsTheEncoding(response);
    SafeIsSmall();
    MerklePayloadIsStandard(nodes);
    EncAddressIsStandard(payoutTo);
    ProofLayout(nodes, response);
    EvaluateLayout(policyId, payoutTo, nodes, response);
    calldata := EncodeEvaluate(ToHex(policyId), ToHex(payoutTo), HexWords(nodes), responseHex);
    Reassociate(EVALUATE_SELECTOR, ToHex(policyId), ToHex(ZeroBytes(12) + payoutTo), ToHex(Uint(96)),
                ToHex(Enc(ProofValue(nodes, response))));
  }

  lemma Reassociate(a: Hex, b: Hex, c: Hex, d: Hex, e: Hex)
    ensures a + b + c + d + e == a + (b + c + d + e)
  {
  }

  lemma ProofLayout(nodes: seq<Word>, response: Value)
    requires IsDynamic(response)
    ensures Laid([ToHex(Enc(Array(Statics(nodes)))), ToHex(Enc(response))]) == ToHex(Enc(ProofValue(nodes, response)))
  {
    hide ToHex, Laid, EncAll;
    var members := [Array(Statics(nodes)), response];
    assert HexAll(members) == [ToHex(Enc(Array(Statics(nodes)))), ToHex(Enc(response))];
    LaidIsStandard(members);
  }

  lemma EvaluateLayout(policyId: Word, payoutTo: Address, nodes: seq<Word>, response: Value)
    requires IsDynamic(response)
    ensures ToHex(EncAll(EvaluateArguments(policyId, payoutTo, nodes, response)))
            == ToHex(policyId) + ToHex(ZeroBytes(12) + payoutTo) + ToHex(Uint(96))
               + ToHex(Enc(ProofValue(nodes, response)))
  {
    hide ToHex, Uint, Enc;
    var proof, to := ProofValue(nodes, response), ZeroBytes(12) + payoutTo;
    assert IsDynamic(Array(Statics(nodes))) && AnyDynamic(proof.members);
    TwoStaticsFirst(policyId, to, [proof]);
    assert [proof][1..] == [];
    assert HeadSize([proof]) == 32 + HeadSize([]) == 32;
    assert Heads([proof], 96) == Uint(96) + Heads([], 96 + |Enc(proof)|) == Uint(96);
    assert Tails([proof]) == Enc(proof) + Tails([]) == Enc(proof);
    HexConcat(policyId + to + Uint(96), Enc(proof));
    HexConcat(policyId + to, Uint(96));
    HexConcat(policyId, to);
  }
}
