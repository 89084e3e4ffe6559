/** The page's hand-written ABI encoder, with its loops and its thrown errors (None), proved
    against the standard encoding. Text is hexadecimal digits, without the 0x prefix. */
module WebEncoder {
  import opened Wrappers
  import opened Bytes
  import opened Hex
  import opened AbiSpec
  import Radix
  import Requests

  /** The largest integer a JavaScript number or string length holds exactly. */
  const MAX_SAFE: nat := 0x1F_FFFF_FFFF_FFFF

  function ZeroDigits(count: nat): (h: Hex)
    ensures |h| == count
  {
    seq(count, _ => 0)
  }

  function PadLeft(h: Hex): Option<Hex> {
    if |h| > 64 then None else Some(ZeroDigits(64 - |h|) + h)
  }

  function PadRightHex(h: Hex): Hex {
    if |h| % 64 == 0 then h else h + ZeroDigits(64 - |h| % 64)
  }

  function EncUint(n: int): Option<Hex> {
    if n < 0 then None else PadLeft(Radix.Shortest(n, 16))
  }

  function EncBytes32(h: Hex): Option<Hex> {
    if |h| != 64 then None else Some(h)
  }

  function EncAddress(h: Hex): Option<Hex> {
    if |h| != 40 then None else PadLeft(h)
  }

  function EncDynamic(payload: Hex): Option<Hex> {
    if |payload| % 2 != 0 then None
    else
      match EncUint(|payload| / 2)
      case None => None
      case Some(length) => Some(length + PadRightHex(payload))
  }

  lemma SafeIsSmall()
    ensures MAX_SAFE < UINT256_LIMIT
  {
    assert Radix.Pow(256, 1) == 256;
    assert Radix.Pow(256, 2) == 0x1_0000;
    assert Radix.Pow(256, 3) == 0x100_0000;
    assert Radix.Pow(256, 4) == 0x1_0000_0000;
    assert Radix.Pow(256, 5) == 0x100_0000_0000;
    assert Radix.Pow(256, 6) == 0x1_0000_0000_0000;
    assert Radix.Pow(256, 7) == 0x100_0000_0000_0000;
    Radix.PowMonotone(256, 7, WORD_SIZE);
  }

  /** An unsigned slot takes exactly the uint256 range and holds the standard word. */
  lemma EncUintIsStandard(n: int)
    ensures EncUint(n) == if 0 <= n < UINT256_LIMIT then Some(ToHex(Uint(n))) else None
  {
    if n >= 0 {
      PowSquare(WORD_SIZE);
      Radix.ShortestPadded(n, 16, 2 * WORD_SIZE);
      HexOfDigits(n, WORD_SIZE);
    }
  }

  lemma EncAddressIsStandard(a: Address)
    ensures EncAddress(ToHex(a)) == Some(ToHex(ZeroBytes(12) + a))
  {
    HexConcat(ZeroBytes(12), a);
    HexOfZeros(12);
  }

  lemma EncAddressIff(h: Hex)
    ensures EncAddress(h).Some? <==> |h| == 40
  {
  }

  lemma PadRightIsStandard(b: Bytes)
    ensures PadRightHex(ToHex(b)) == ToHex(PadRight(b))
  {
    hide ToHex, ZeroDigits, ZeroBytes;
    var over := |b| % 32;
    assert |ToHex(b)| % 64 == 2 * over;
    if over != 0 {
      HexOfZeros(32 - over);
      ZeroDigitsAreZeros(2 * (32 - over));
      HexConcat(b, ZeroBytes(32 - over));
    }
  }

  lemma ZeroDigitsAreZeros(count: nat)
    ensures ZeroDigits(count) == seq(count, _ => 0)
  {
  }

  lemma EncDynamicIsStandard(b: Bytes)
    requires |b| < UINT256_LIMIT
    ensures EncDynamic(ToHex(b)) == Some(ToHex(Enc(Blob(b))))
  {
    hide ToHex, Uint, EncUint, PadRight, PadRightHex;
    assert |ToHex(b)| / 2 == |b| && |ToHex(b)| % 2 == 0;
    EncUintIsStandard(|b|);
    PadRightIsStandard(b);
    HexConcat(Uint(|b|), PadRight(b));
  }

  /** utf8Hex: two digits for every byte of the text. */
  method Utf8Hex(text: Bytes) returns (out: Hex)
    ensures out == ToHex(text)
  {
    out := [];
    for i := 0 to |text|
      invariant out == ToHex(text[..i])
    {
      HexConcat(text[..i], [text[i]]);
      assert text[..i] + [text[i]] == text[..i + 1];
      out := out + [text[i] / 16, text[i] % 16];
    }
    assert text[..|text|] == text;
  }

  method EncString(text: Bytes) returns (out: Option<Hex>)
    ensures out == if |text| < UINT256_LIMIT then Some(ToHex(Enc(Blob(text)))) else None
  {
    var hex := Utf8Hex(text);
    EncUintIsStandard(|text|);
    if |text| < UINT256_LIMIT {
      EncDynamicIsStandard(text);
    }
    out := EncDynamic(hex);
  }

  // ---- the head-and-tail loop

  /** The offset words in front of a list of payloads, the first payload starting at `offset`. */
  function OffsetWords(members: seq<Hex>, offset: nat): Hex {
    if members == [] then []
    else ToHex(Uint(offset)) + OffsetWords(members[1..], offset + |members[0]| / 2)
  }

  function Joined(members: seq<Hex>): Hex {
    if members == [] then [] else members[0] + Joined(members[1..])
  }

  /** A tuple of dynamic members: a head of offsets, then the payloads. */
  function Laid(members: seq<Hex>): Hex {
    OffsetWords(members, 32 * |members|) + Joined(members)
  }

  predicate WholeBytes(members: seq<Hex>) {
    forall i :: 0 <= i < |members| ==> |members[i]| % 2 == 0
  }

  /** Offsets are byte counts, so every payload with another one behind it is whole bytes. */
  predicate WholeOffsets(members: seq<Hex>) {
    forall i :: 0 <= i < |members| - 1 ==> |members[i]| % 2 == 0
  }

  lemma {:induction false} OffsetWordsLength(members: seq<Hex>, offset: nat)
    ensures |OffsetWords(members, offset)| == 64 * |members|
  {
    if members != [] {
      OffsetWordsLength(members[1..], offset + |members[0]| / 2);
    }
  }

  lemma {:induction false} OffsetWordsAppend(members: seq<Hex>, last: Hex, offset: nat)
    requires WholeBytes(members)
    ensures |Joined(members)| % 2 == 0
    ensures OffsetWords(members + [last], offset)
            == OffsetWords(members, offset) + ToHex(Uint(offset + |Joined(members)| / 2))
  {
    hide ToHex, Uint;
    if members == [] {
      assert members + [last] == [last];
      assert OffsetWords([last], offset) == ToHex(Uint(offset)) + OffsetWords([], offset + |last| / 2);
    } else {
      OffsetWordsAppend(members[1..], last, offset + |members[0]| / 2);
      assert (members + [last])[1..] == members[1..] + [last];
      assert |members[0]| % 2 == 0;
    }
  }

  lemma {:induction false} JoinedAppend(members: seq<Hex>, last: Hex)
    ensures Joined(members + [last]) == Joined(members) + last
  {
    if members == [] {
      assert members + [last] == [last];
    } else {
      JoinedAppend(members[1..], last);
      assert (members + [last])[1..] == members[1..] + [last];
    }
  }

  lemma {:induction false} JoinedPrefix(members: seq<Hex>, i: nat)
    requires i <= |members|
    ensures Joined(members) == Joined(members[..i]) + Joined(members[i..])
  {
    if i > 0 {
      JoinedPrefix(members[1..], i - 1);
      assert members[..i][1..] == members[1..][..i - 1];
      assert members[i..] == members[1..][i - 1..];
    } else {
      assert members[..0] == [] && members[0..] == members;
    }
  }

  /** One turn of the loop takes one offset word and one payload off what is left to lay out. */
  lemma NextMember(members: seq<Hex>, i: nat, offset: nat)
    requires i < |members|
    requires offset + |Joined(members[i..])| / 2 <= MAX_SAFE
    ensures EncUint(offset).Some?
    ensures OffsetWords(members[i..], offset)
            == EncUint(offset).value + OffsetWords(members[i + 1..], offset + |members[i]| / 2)
    ensures Joined(members[i..]) == members[i] + Joined(members[i + 1..])
    ensures |members[i]| / 2 + |Joined(members[i + 1..])| / 2 <= |Joined(members[i..])| / 2
  {
    hide ToHex, Uint, EncUint;
    SafeIsSmall();
    EncUintIsStandard(offset);
    assert members[i..][1..] == members[i + 1..] && members[i..][0] == members[i];
  }

  /** The loop shared by encDynamicTuple and encodeSettle: payloads appended, offsets counted. */
  method AppendMembers(members: seq<Hex>, firstOffset: nat, before: Hex) returns (head: Hex, tail: Hex)
    requires WholeOffsets(members)
    requires firstOffset + |Joined(members)| / 2 <= MAX_SAFE
    ensures head == before + OffsetWords(members, firstOffset)
    ensures tail == Joined(members)
  {
    head, tail := before, [];
    var offset: nat := firstOffset;
    assert members[0..] == members && [] + Joined(members) == Joined(members);
    hide ToHex, Uint, EncUint;
    for i := 0 to |members|
      invariant head + OffsetWords(members[i..], offset) == before + OffsetWords(members, firstOffset)
      invariant tail + Joined(members[i..]) == Joined(members)
      invariant offset + |Joined(members[i..])| / 2 <= MAX_SAFE
    {
      hide OffsetWords, Joined;
      NextMember(members, i, offset);
      var word := EncUint(offset).value;
      ConcatAssociative(head, word, OffsetWords(members[i + 1..], offset + |members[i]| / 2));
      ConcatAssociative(tail, members[i], Joined(members[i + 1..]));
      head := head + word;
      tail := tail + members[i];
      offset := offset + |members[i]| / 2;
    }
    assert members[|members|..] == [];
    assert head + [] == head && tail + [] == tail;
  }

  method EncDynamicTuple(members: seq<Hex>) returns (out: Hex)
    requires WholeOffsets(members)
    requires 32 * |members| + |Joined(members)| / 2 <= MAX_SAFE
    ensures out == Laid(members)
  {
    hide ToHex, Uint, OffsetWords, Joined;
    var head, tail := AppendMembers(members, |members| * 32, []);
    out := head + tail;
  }

  lemma {:induction false} OffsetWordAt(members: seq<Hex>, offset: nat, i: nat)
    requires WholeBytes(members) && i < |members|
    ensures |OffsetWords(members, offset)| == 64 * |members|
    ensures OffsetWords(members, offset)[64 * i..64 * (i + 1)]
            == ToHex(Uint(offset + |Joined(members[..i])| / 2))
  {
    hide ToHex, Uint;
    var rest := OffsetWords(members[1..], offset + |members[0]| / 2);
    OffsetWordsLength(members, offset);
    OffsetWordsLength(members[1..], offset + |members[0]| / 2);
    if i > 0 {
      OffsetWordAt(members[1..], offset + |members[0]| / 2, i - 1);
      assert members[..i][1..] == members[1..][..i - 1];
      assert |members[0]| % 2 == 0;
      assert OffsetWords(members, offset)[64 * i..64 * (i + 1)] == rest[64 * (i - 1)..64 * i];
    } else {
      assert members[..0] == [];
    }
  }

  /** The layout is invertible: following the offset word written for a member and taking
      as many digits as the member has gives the member, for any list of whole-byte members. */
  lemma MemberIsAtItsOffset(members: seq<Hex>, i: nat)
    requires WholeBytes(members) && i < |members|
    requires 32 * |members| + |Joined(members)| / 2 <= MAX_SAFE
    ensures |Laid(members)| >= 64 * |members|
    ensures var start := 2 * HexValue(Laid(members)[64 * i..64 * (i + 1)]);
            start + |members[i]| <= |Laid(members)| && Laid(members)[start..start + |members[i]|] == members[i]
  {
    hide ToHex, Uint, OffsetWords, Joined, HexValue;
    var heads, tails, before := OffsetWords(members, 32 * |members|), Joined(members), Joined(members[..i]);
    OffsetWordAt(members, 32 * |members|, i);
    assert Laid(members)[64 * i..64 * (i + 1)] == heads[64 * i..64 * (i + 1)];
    MemberInJoined(members, i);
    SafeIsSmall();
    HexValueOfUint(32 * |members| + |before| / 2);
    assert (heads + tails)[|heads| + |before|..|heads| + |before| + |members[i]|]
        == tails[|before|..|before| + |members[i]|];
  }

  lemma MemberInJoined(members: seq<Hex>, i: nat)
    requires WholeBytes(members) && i < |members|
    ensures |Joined(members[..i])| % 2 == 0
    ensures |Joined(members[..i])| + |members[i]| <= |Joined(members)|
    ensures Joined(members)[|Joined(members[..i])|..|Joined(members[..i])| + |members[i]|] == members[i]
  {
    JoinedPrefix(members, i);
    OffsetWordsAppend(members[..i], [], 0);
    assert Joined(members[i..]) == members[i] + Joined(members[i..][1..]);
  }

  // ---- agreement with the standard

  function HexAll(vs: seq<Value>): seq<Hex> {
    seq(|vs|, i requires 0 <= i < |vs| => ToHex(Enc(vs[i])))
  }

  predicate AllDynamic(vs: seq<Value>) {
    forall i :: 0 <= i < |vs| ==> IsDynamic(vs[i])
  }

  lemma {:induction false} LaidPartsAreStandard(vs: seq<Value>, offset: nat)
    requires AllDynamic(vs)
    ensures HeadSize(vs) == 32 * |vs|
    ensures OffsetWords(HexAll(vs), offset) == ToHex(Heads(vs, offset))
    ensures Joined(HexAll(vs)) == ToHex(Tails(vs))
  {
    hide ToHex, Uint;
    if vs != [] {
      LaidPartsAreStandard(vs[1..], offset + |Enc(vs[0])|);
      assert HexAll(vs)[1..] == HexAll(vs[1..]);
      HexConcat(Uint(offset), Heads(vs[1..], offset + |Enc(vs[0])|));
      HexConcat(Enc(vs[0]), Tails(vs[1..]));
      assert IsDynamic(vs[0]);
    }
  }

  /** For dynamic members the loop's layout is the standard tuple encoding. */
  lemma LaidIsStandard(vs: seq<Value>)
    requires AllDynamic(vs)
    ensures Laid(HexAll(vs)) == ToHex(EncAll(vs)) == ToHex(Enc(Tuple(vs)))
  {
    LaidPartsAreStandard(vs, 32 * |vs|);
    HexConcat(Heads(vs, HeadSize(vs)), Tails(vs));
  }

  // ---- encodeRequestBody

  const REQUEST_BODY_FIELDS: seq<string> :=
    ["url", "httpMethod", "headers", "queryParams", "body", "postProcessJq", "abiSignature"]

  predicate Complete(body: map<string, Bytes>) {
    forall f :: f in REQUEST_BODY_FIELDS ==> f in body
  }

  /** The request a complete object describes. */
  function RequestOf(body: map<string, Bytes>): Requests.RequestBody
    requires Complete(body)
  {
    assert forall i :: 0 <= i < |REQUEST_BODY_FIELDS| ==> REQUEST_BODY_FIELDS[i] in body;
    Requests.RequestBody(body["url"], body["httpMethod"], body["headers"], body["queryParams"],
                         body["body"], body["postProcessJq"], body["abiSignature"])
  }

  function FieldValues(body: map<string, Bytes>): seq<Value>
    requires Complete(body)
  {
    Requests.Fields(RequestOf(body))
  }

  lemma FieldsInOrder(body: map<string, Bytes>, i: nat)
    requires Complete(body) && i < |REQUEST_BODY_FIELDS|
    ensures |FieldValues(body)| == |REQUEST_BODY_FIELDS|
    ensures FieldValues(body)[i] == Blob(body[REQUEST_BODY_FIELDS[i]])
  {
  }

  /** The encoded request is small enough to be a JavaScript string. */
  predicate Encodable(vs: seq<Value>) {
    && 32 * |vs| + |Tails(vs)| <= MAX_SAFE
    && forall i :: 0 <= i < |vs| && vs[i].Blob? ==> |vs[i].content| <= MAX_SAFE
  }

  lemma FieldFits(body: map<string, Bytes>, i: nat)
    requires i < |REQUEST_BODY_FIELDS|
    ensures Complete(body) && Encodable(FieldValues(body)) ==> |body[REQUEST_BODY_FIELDS[i]]| < UINT256_LIMIT
  {
    SafeIsSmall();
    if Complete(body) && Encodable(FieldValues(body)) {
      FieldsInOrder(body, i);
      assert FieldValues(body)[i].Blob?;
    }
  }

  lemma MembersFit(vs: seq<Value>)
    requires AllDynamic(vs) && Encodable(vs)
    ensures WholeBytes(HexAll(vs)) && 32 * |HexAll(vs)| + |Joined(HexAll(vs))| / 2 <= MAX_SAFE
  {
    hide ToHex, Uint, Enc, Joined, OffsetWords, Heads, Tails;
    LaidPartsAreStandard(vs, 0);
  }

  /** The seven fields, each encoded as a string; an error when one is missing. */
  method EncodeFields(body: map<string, Bytes>) returns (out: Option<seq<Hex>>)
    requires Complete(body) ==> Encodable(FieldValues(body))
    ensures out.Some? <==> Complete(body)
    ensures Complete(body) ==> out.value == HexAll(FieldValues(body))
  {
    hide ToHex, Uint, Enc, Encodable;
    var members: seq<Hex> := [];
    for i := 0 to |REQUEST_BODY_FIELDS|
      invariant |members| == i
      invariant forall j :: 0 <= j < i ==>
                  REQUEST_BODY_FIELDS[j] in body && members[j] == ToHex(Enc(Blob(body[REQUEST_BODY_FIELDS[j]])))
    {
      if REQUEST_BODY_FIELDS[i] !in body {
        return None;
      }
      var member := EncString(body[REQUEST_BODY_FIELDS[i]]);
      if member.None? {
        FieldFits(body, i);
        return None;
      }
      members := members + [member.value];
    }
    assert Complete(body);
    FieldsAreMembers(body, members);
    out := Some(members);
  }

  lemma FieldsAreMembers(body: map<string, Bytes>, members: seq<Hex>)
    requires Complete(body) && |members| == |REQUEST_BODY_FIELDS|
    requires forall j :: 0 <= j < |members| ==> members[j] == ToHex(Enc(Blob(body[REQUEST_BODY_FIELDS[j]])))
    ensures members == HexAll(FieldValues(body))
  {
    hide ToHex, Enc;
    forall i | 0 <= i < |members| ensures |FieldValues(body)| == |members| && members[i] == HexAll(FieldValues(body))[i] {
      FieldsInOrder(body, i);
    }
  }

  method EncodeRequestBody(body: map<string, Bytes>) returns (out: Option<Hex>)
    requires Complete(body) ==> Encodable(FieldValues(body))
    ensures out.Some? <==> Complete(body)
    ensures Complete(body) ==> out.value == ToHex(Enc(Tuple(FieldValues(body))))
  {
    hide ToHex, Uint, Enc, EncAll, HexAll, Laid, Joined, Encodable, Complete;
    var members := EncodeFields(body);
    if members.None? {
      return None;
    }
    AllFieldsAreBlobs(body);
    MembersFit(FieldValues(body));
    LaidIsStandard(FieldValues(body));
    var laid := EncDynamicTuple(members.value);
    out := Some(laid);
  }

  lemma AllFieldsAreBlobs(body: map<string, Bytes>)
    requires Complete(body)
    ensures AllDynamic(FieldValues(body))
  {
    forall i | 0 <= i < |FieldValues(body)| ensures IsDynamic(FieldValues(body)[i]) {
      FieldsInOrder(body, if i < |REQUEST_BODY_FIELDS| then i else 0);
    }
  }

  /** The encoded body determines all seven texts. */
  lemma BodiesEncodeApart(a: map<string, Bytes>, b: map<string, Bytes>)
    requires Complete(a) && Complete(b) && Encodable(FieldValues(a)) && Encodable(FieldValues(b))
    requires ToHex(Enc(Tuple(FieldValues(a)))) == ToHex(Enc(Tuple(FieldValues(b))))
    ensures RequestOf(a) == RequestOf(b)
    ensures forall f :: f in REQUEST_BODY_FIELDS ==> a[f] == b[f]
  {
    hide ToHex, Enc, EncAll, Tails;
    HexIsInjective(Enc(Tuple(FieldValues(a))), Enc(Tuple(FieldValues(b))));
    TupleIsItsMembers(FieldValues(a));
    TupleIsItsMembers(FieldValues(b));
    SafeIsSmall();
    SameBlobTypes(FieldValues(a), FieldValues(b));
    ShortBlobsFit(FieldValues(a));
    ShortBlobsFit(FieldValues(b));
    EncodingIsInjective(FieldValues(a), FieldValues(b));
    forall i | 0 <= i < |REQUEST_BODY_FIELDS| ensures a[REQUEST_BODY_FIELDS[i]] == b[REQUEST_BODY_FIELDS[i]] {
      FieldsInOrder(a, i);
      FieldsInOrder(b, i);
    }
    assert RequestOf(a).url == FieldValues(a)[0].content == FieldValues(b)[0].content == RequestOf(b).url;
  }

  lemma TupleIsItsMembers(vs: seq<Value>)
    ensures Enc(Tuple(vs)) == EncAll(vs)
  {
  }

  const TRIGGER_REQUEST_HASH_SELECTOR: Hex := [1, 6, 1, 2, 6, 0, 9, 13]

  /** The argument of triggerRequestHash is, byte for byte, what the contract hashes and compares
      with the policy's binding. */
  method EncodeTriggerRequestHash(body: map<string, Bytes>) returns (out: Option<Hex>)
    requires Complete(body) ==> Encodable(FieldValues(body))
    ensures out.Some? <==> Complete(body)
    ensures Complete(body) ==>
              out.value == TRIGGER_REQUEST_HASH_SELECTOR + ToHex(Requests.EncodedRequest(RequestOf(body)))
  {
    hide ToHex, Uint, Enc, EncAll, EncUint, Encodable;
    SafeIsSmall();
    EncUintIsStandard(32);
    var offset := EncUint(32);
    var payload := EncodeRequestBody(body);
    if payload.None? {
      return None;
    }
    LoneDynamic(Tuple(FieldValues(body)));
    HexConcat(Uint(32), Enc(Tuple(FieldValues(body))));
    assert TRIGGER_REQUEST_HASH_SELECTOR + (offset.value + payload.value)
        == TRIGGER_REQUEST_HASH_SELECTOR + offset.value + payload.value;
    out := Some(TRIGGER_REQUEST_HASH_SELECTOR + offset.value + payload.value);
  }
}
