/** Web2Json requests, responses and proofs, and the request hash a policy is bound to. */
module Requests {
  import opened Wrappers
  import opened Bytes
  import opened AbiSpec
  import Signing

  /** Seven strings, as UTF-8 bytes, in the order the interface declares them. */
  datatype RequestBody = RequestBody(
    url: Bytes, httpMethod: Bytes, headers: Bytes, queryParams: Bytes,
    body: Bytes, postProcessJq: Bytes, abiSignature: Bytes)

  datatype Response = Response(
    attestationType: Word, sourceId: Word, votingRound: nat, lowestUsedTimestamp: nat,
    requestBody: RequestBody, abiEncodedData: Bytes)

  datatype Proof = Proof(merkleProof: seq<Word>, data: Response)

  function Fields(b: RequestBody): seq<Value> {
    [Blob(b.url), Blob(b.httpMethod), Blob(b.headers), Blob(b.queryParams),
     Blob(b.body), Blob(b.postProcessJq), Blob(b.abiSignature)]
  }

  /** abi.encode of a request body. */
  function EncodedRequest(b: RequestBody): Bytes {
    EncAll([Tuple(Fields(b))])
  }

  function RequestHash(keccak: Signing.Hash, b: RequestBody): Word {
    keccak(EncodedRequest(b))
  }

  predicate ShortFields(b: RequestBody) {
    forall i :: 0 <= i < |Fields(b)| ==> |Fields(b)[i].content| < UINT256_LIMIT
  }

  /** Two requests that hash alike are the same request in all seven fields, unless the hash
      function collides on their encodings. */
  lemma RequestHashPinsEveryField(keccak: Signing.Hash, a: RequestBody, b: RequestBody)
    requires ShortFields(a) && ShortFields(b)
    requires RequestHash(keccak, a) == RequestHash(keccak, b)
    ensures a == b || Signing.Collides(keccak, EncodedRequest(a), EncodedRequest(b))
  {
    if EncodedRequest(a) == EncodedRequest(b) {
      SameBlobTypes(Fields(a), Fields(b));
      ShortBlobsFit(Fields(a));
      ShortBlobsFit(Fields(b));
      LoneTuples(Fields(a), Fields(b));
      EncodingIsInjective([Tuple(Fields(a))], [Tuple(Fields(b))]);
      var x, y := Fields(a), Fields(b);
      assert x == y;
      assert x[0] == y[0] && x[1] == y[1] && x[2] == y[2] && x[3] == y[3];
      assert x[4] == y[4] && x[5] == y[5] && x[6] == y[6];
    }
  }

  /** The rainfall word of the attested reading; too short a payload does not decode. */
  function Rainfall(data: Bytes): Option<nat> {
    if |data| < 96 then None else Some(ToNat(data[64..96]))
  }

  lemma RainfallIsWord(data: Bytes)
    ensures Rainfall(data).Some? ==> Rainfall(data).value < UINT256_LIMIT
  {
    if |data| >= 96 {
      WordRoundTrip(data[64..96]);
    }
  }

  /** The attested payload: latitude, longitude and rainfall, in the order of the struct. */
  function Reading(latitude: Word, longitude: Word, rainfall: nat): Bytes {
    EncAll([Static(latitude), Static(longitude), Static(Uint(rainfall))])
  }

  /** Of an encoded reading the third word is taken as rainfall, whatever follows it; a payload is
      refused exactly when it has no third word. */
  lemma RainfallOfReading(latitude: Word, longitude: Word, rainfall: nat, rest: Bytes)
    requires rainfall < UINT256_LIMIT
    ensures |Reading(latitude, longitude, rainfall)| == 96
    ensures Rainfall(Reading(latitude, longitude, rainfall) + rest) == Some(rainfall)
  {
    hide Uint, ToNat;
    var third: Word := Uint(rainfall);
    ThreeStatics(latitude, longitude, third);
    var data := latitude + longitude + third + rest;
    assert data[64..96] == third;
    UintRoundTrip(rainfall);
  }

  lemma RainfallIff(data: Bytes)
    ensures Rainfall(data).Some? <==> |data| >= 96
  {
  }
}
