/** The settle calldata the page sends, and its walk that takes the signature out of it again. */
module WebCalls {
  import opened Wrappers
  import opened Bytes
  import opened Hex
  import opened AbiSpec
  import opened WebEncoder

  // ---- argument lists that start with static members

  lemma TwoStaticsFirst(a: Word, b: Word, rest: seq<Value>)
    ensures EncAll([Static(a)] + ([Static(b)] + rest)) == a + b + Heads(rest, 64 + HeadSize(rest)) + Tails(rest)
  {
    var size := 64 + HeadSize(rest);
    StaticFirst(a, [Static(b)] + rest, size);
    StaticFirst(b, rest, size);
    assert a + (b + Heads(rest, size)) == a + b + Heads(rest, size);
  }

  // ---- settle(bytes32, uint8, string, bytes, bytes)

  const SETTLE_SELECTOR: Hex := [2, 8, 9, 13, 11, 4, 11, 1]

  function SettleBlobs(tag: Bytes, data: Bytes, signature: Bytes): seq<Value> {
    [Blob(tag), Blob(data), Blob(signature)]
  }

  function SettleArguments(id: Word, status: nat, tag: Bytes, data: Bytes, signature: Bytes): seq<Value> {
    [Static(id)] + ([Static(Uint(status))] + SettleBlobs(tag, data, signature))
  }

  lemma SettleLayout(id: Word, status: nat, tag: Bytes, data: Bytes, signature: Bytes)
    ensures var members := HexAll(SettleBlobs(tag, data, signature));
            && WholeBytes(members)
            && ToHex(EncAll(SettleArguments(id, status, tag, data, signature)))
               == ToHex(id) + ToHex(Uint(status)) + OffsetWords(members, 160) + Joined(members)
  {
    hide ToHex, Uint, Enc, OffsetWords, Joined, HeadSize, Heads, Tails, EncAll;
    var blobs := SettleBlobs(tag, data, signature);
    TwoStaticsFirst(id, Uint(status), blobs);
    LaidPartsAreStandard(blobs, 160);
    HexConcat(id + Uint(status) + Heads(blobs, 160), Tails(blobs));
    HexConcat(id + Uint(status), Heads(blobs, 160));
    HexConcat(id, Uint(status));
  }

  /** encodeSettle: every argument that fits its type is encoded as the standard says, and
      anything else is an error. */
  method EncodeSettle(id: Hex, status: int, tag: Bytes, data: Hex, signature: Hex) returns (out: Option<Hex>)
    requires |tag| < UINT256_LIMIT && |data| / 2 < UINT256_LIMIT && |signature| / 2 < UINT256_LIMIT
    requires |data| % 2 == 0 && |signature| % 2 == 0 ==>
               160 + |Joined(HexAll(SettleBlobs(tag, FromHex(data), FromHex(signature))))| / 2 <= MAX_SAFE
    ensures out.Some? <==> |id| == 64 && 0 <= status < UINT256_LIMIT && |data| % 2 == 0 && |signature| % 2 == 0
    ensures out.Some? ==>
              out.value == SETTLE_SELECTOR
                + ToHex(EncAll(SettleArguments(FromHex(id), status, tag, FromHex(data), FromHex(signature))))
  {
    hide ToHex, FromHex, Uint, Enc, EncUint, OffsetWords, Joined, HeadSize, Heads, Tails, EncAll;
    var encodedTag := EncString(tag);
    var encodedData, encodedSignature := EncDynamic(data), EncDynamic(signature);
    var encodedId, encodedStatus := EncBytes32(id), EncUint(status);
    EncUintIsStandard(status);
    EncUintIsStandard(|data| / 2);
    EncUintIsStandard(|signature| / 2);
    if encodedId.None? || encodedStatus.None? || encodedData.None? || encodedSignature.None? {
      return None;
    }
    ToHexOfFromHex(id);
    ToHexOfFromHex(data);
    ToHexOfFromHex(signature);
    EncDynamicIsStandard(FromHex(data));
    EncDynamicIsStandard(FromHex(signature));
    SettleLayout(FromHex(id), status, tag, FromHex(data), FromHex(signature));
    var members := [encodedTag.value, encodedData.value, encodedSignature.value];
    assert members == HexAll(SettleBlobs(tag, FromHex(data), FromHex(signature)));
    var head, tail := AppendMembers(members, 5 * 32, encodedId.value + encodedStatus.value);
    assert SETTLE_SELECTOR + (head + tail) == SETTLE_SELECTOR + head + tail;
    out := Some(SETTLE_SELECTOR + head + tail);
  }

  // ---- reading calldata back

  /** JavaScript's slice: bounds beyond the end are cut. */
  function Slice(h: Hex, from: nat, to: nat): Hex {
    var end := if to < |h| then to else |h|;
    if from < end then h[from..end] else []
  }

  /** Number(BigInt('0x' + digits)): no digits is a thrown syntax error. Beyond the exact integers
      JavaScript rounds, but such a number is past the end of any string, rounded or not. */
  function NumberOf(h: Hex): Option<nat> {
    if h == [] then None else Some(HexValue(h))
  }

  /** The dynamic argument at head slot `slot`: follow the offset, read the length, take the bytes. */
  function DynamicArgument(args: Hex, slot: nat): Option<Hex> {
    match NumberOf(Slice(args, slot * 64, (slot + 1) * 64))
    case None => None
    case Some(offset) =>
      match NumberOf(Slice(args, 2 * offset, 2 * offset + 64))
      case None => None
      case Some(length) => Some(Slice(args, 2 * offset + 64, 2 * offset + 64 + 2 * length))
  }

  /** Calldata that claims to be a settle and has no readable signature makes the walk throw. */
  datatype WalkError = Unreadable

  /** The signature inside a settle transaction's input; none in other transactions. */
  function SettleSignature(input: Hex): Result<Option<Hex>, WalkError> {
    if Slice(input, 0, 8) != SETTLE_SELECTOR then Ok(None)
    else
      match DynamicArgument(Slice(input, 8, |input|), 4)
      case None => Err(Unreadable)
      case Some(signature) => Ok(Some(signature))
  }

  /** Reading a blob out of head digits, offset words and payloads, through its offset word. */
  lemma BlobIsRead(before: Hex, members: seq<Hex>, i: nat, offset: nat, slot: nat, content: Bytes)
    requires WholeBytes(members) && i < |members| && members[i] == ToHex(Enc(Blob(content)))
    requires 2 * offset == |before| + 64 * |members| && slot * 64 == |before| + 64 * i
    requires 2 * offset + |Joined(members)| <= MAX_SAFE
    ensures DynamicArgument(before + OffsetWords(members, offset) + Joined(members), slot) == Some(ToHex(content))
  {
    hide *;
    var skipped, rest := PlaceOf(members, offset, i, content);
    var position: nat := offset + |skipped| / 2;
    WordIsFound(before, OffsetWords(members, offset), Joined(members), i, slot);
    BlobBehindHeads(before + OffsetWords(members, offset), skipped, Joined(members), slot, position,
                    2 * offset + |skipped|, content, rest);
  }

  /** What stands before and after a payload, and the offset word written for it. */
  lemma PlaceOf(members: seq<Hex>, offset: nat, i: nat, content: Bytes) returns (skipped: Hex, rest: Hex)
    requires WholeBytes(members) && i < |members| && members[i] == ToHex(Enc(Blob(content)))
    ensures Joined(members) == skipped + (ToHex(Enc(Blob(content))) + rest)
    ensures |skipped| % 2 == 0 && |skipped| + 64 + 2 * |content| <= |Joined(members)|
    ensures |OffsetWords(members, offset)| == 64 * |members|
    ensures OffsetWords(members, offset)[64 * i..64 * (i + 1)] == ToHex(Uint(offset + |skipped| / 2))
  {
    hide ToHex, Uint, Enc, OffsetWords, Joined;
    skipped, rest := Joined(members[..i]), Joined(members[i..][1..]);
    OffsetWordAt(members, offset, i);
    MemberInJoined(members, i);
    JoinedPrefix(members, i);
    JoinedFirst(members[i..]);
    assert |members[i]| >= 64 + 2 * |content| by { var _ := BlobParts(content); }
  }

  lemma BlobBehindHeads(
    front: Hex, skipped: Hex, tails: Hex, slot: nat, position: nat, start: nat, content: Bytes, rest: Hex)
    requires tails == skipped + (ToHex(Enc(Blob(content))) + rest)
    requires Slice(front + tails, slot * 64, (slot + 1) * 64) == ToHex(Uint(position))
    requires start == 2 * position && start == |front| + |skipped| && position <= MAX_SAFE && |content| <= MAX_SAFE
    ensures DynamicArgument(front + tails, slot) == Some(ToHex(content))
  {
    hide *;
    PayloadIsFound(front, skipped, tails, start, content, rest);
    SlotHoldsBlob(front + tails, slot, position, start, content);
  }

  /** A blob is also found behind heads and other payloads. */
  lemma PayloadIsFound(front: Hex, skipped: Hex, tails: Hex, start: nat, content: Bytes, rest: Hex)
    requires tails == skipped + (ToHex(Enc(Blob(content))) + rest)
    requires start == |front| + |skipped|
    ensures Slice(front + tails, start, start + 64) == ToHex(Uint(|content|))
    ensures Slice(front + tails, start + 64, start + 64 + 2 * |content|) == ToHex(content)
  {
    hide *;
    var payload := ToHex(Enc(Blob(content))) + rest;
    BlobIsFound(front + skipped, start, content, rest);
    SameSequence(front, skipped, payload, tails);
  }

  lemma SameSequence(front: Hex, skipped: Hex, payload: Hex, tails: Hex)
    requires tails == skipped + payload
    ensures front + tails == front + skipped + payload
  {
  }

  lemma SlotHoldsBlob(args: Hex, slot: nat, position: nat, start: nat, content: Bytes)
    requires position <= MAX_SAFE && |content| <= MAX_SAFE && start == 2 * position
    requires Slice(args, slot * 64, (slot + 1) * 64) == ToHex(Uint(position))
    requires Slice(args, start, start + 64) == ToHex(Uint(|content|))
    requires Slice(args, start + 64, start + 64 + 2 * |content|) == ToHex(content)
    ensures DynamicArgument(args, slot) == Some(ToHex(content))
  {
    hide ToHex, Uint, Slice, NumberOf, DynamicArgument;
    NumberIsRead(position);
    NumberIsRead(|content|);
    ArgumentIsRead(args, slot, position, |content|);
  }

  lemma ArgumentIsRead(args: Hex, slot: nat, offset: nat, length: nat)
    requires NumberOf(Slice(args, slot * 64, (slot + 1) * 64)) == Some(offset)
    requires NumberOf(Slice(args, 2 * offset, 2 * offset + 64)) == Some(length)
    ensures DynamicArgument(args, slot) == Some(Slice(args, 2 * offset + 64, 2 * offset + 64 + 2 * length))
  {
    hide Slice, NumberOf, HexValue;
  }

  lemma JoinedFirst(members: seq<Hex>)
    requires members != []
    ensures Joined(members) == members[0] + Joined(members[1..])
  {
  }

  lemma NumberIsRead(n: nat)
    requires n <= MAX_SAFE
    ensures NumberOf(ToHex(Uint(n))) == Some(n)
  {
    hide ToHex, Uint, HexValue;
    SafeIsSmall();
    HexValueOfUint(n);
  }

  lemma WordIsFound(before: Hex, heads: Hex, tails: Hex, i: nat, slot: nat)
    requires slot * 64 == |before| + 64 * i && 64 * (i + 1) <= |heads|
    ensures Slice(before + heads + tails, slot * 64, (slot + 1) * 64) == heads[64 * i..64 * (i + 1)]
  {
    assert (before + heads + tails)[|before| + 64 * i..|before| + 64 * (i + 1)] == heads[64 * i..64 * (i + 1)];
  }

  lemma MiddleIsSliced(a: Hex, b: Hex, c: Hex)
    ensures Slice(a + (b + c), |a|, |a| + |b|) == b
  {
    assert b != [] ==> (a + (b + c))[|a|..|a| + |b|] == b;
  }

  /** A blob is read from where it starts: its length, then its bytes. */
  lemma BlobIsFound(lead: Hex, start: nat, content: Bytes, rest: Hex)
    requires |lead| == start
    ensures var args := lead + (ToHex(Enc(Blob(content))) + rest);
            && Slice(args, start, start + 64) == ToHex(Uint(|content|))
            && Slice(args, start + 64, start + 64 + 2 * |content|) == ToHex(content)
  {
    var length: Hex, digits: Hex := ToHex(Uint(|content|)), ToHex(content);
    assert |length| == 64 && |digits| == 2 * |content|;
    hide *;
    var padding := BlobParts(content);
    PartsAreSliced(lead, length, digits, padding, rest, start, start + 64, start + 64 + 2 * |content|);
  }

  lemma PartsAreSliced(
    lead: Hex, length: Hex, content: Hex, padding: Hex, rest: Hex, start: nat, middle: nat, end: nat)
    requires |lead| == start && start + |length| == middle && middle + |content| == end
    ensures var args := lead + (length + content + padding + rest);
            Slice(args, start, middle) == length && Slice(args, middle, end) == content
  {
    hide Slice;
    MiddleIsSliced(lead, length, content + (padding + rest));
    MiddleIsSliced(lead + length, content, padding + rest);
    ReassociateBlob(lead, length, content, padding, rest);
  }

  lemma ReassociateBlob(lead: Hex, length: Hex, content: Hex, padding: Hex, rest: Hex)
    ensures lead + (length + content + padding + rest) == lead + (length + (content + (padding + rest)))
    ensures lead + (length + content + padding + rest) == lead + length + (content + (padding + rest))
  {
  }

  /** An encoded blob is its length, its bytes and padding. */
  lemma BlobParts(content: Bytes) returns (padding: Hex)
    ensures ToHex(Enc(Blob(content))) == ToHex(Uint(|content|)) + ToHex(content) + padding
  {
    hide ToHex, Uint;
    var zeros := if |content| % 32 == 0 then [] else ZeroBytes(32 - |content| % 32);
    padding := ToHex(zeros);
    assert PadRight(content) == content + zeros;
    HexConcat(Uint(|content|), content + zeros);
    HexConcat(content, zeros);
    assert ToHex(Uint(|content|)) + (ToHex(content) + padding) == ToHex(Uint(|content|)) + ToHex(content) + padding;
  }

  /** Whatever is put into a settle call, the page's walk over the calldata returns exactly
      the signature, for tags and data of any length that makes a JavaScript string. */
  lemma SettleSignatureReadsBack(id: Word, status: nat, tag: Bytes, data: Bytes, signature: Bytes)
    requires |ToHex(EncAll(SettleArguments(id, status, tag, data, signature)))| <= MAX_SAFE
    ensures SettleSignature(SETTLE_SELECTOR + ToHex(EncAll(SettleArguments(id, status, tag, data, signature))))
            == Ok(Some(ToHex(signature)))
  {
    hide ToHex, Uint, Enc, EncAll, OffsetWords, Joined, HeadSize, Heads, Tails, DynamicArgument;
    var args := ToHex(EncAll(SettleArguments(id, status, tag, data, signature)));
    var members := HexAll(SettleBlobs(tag, data, signature));
    SettleLayout(id, status, tag, data, signature);
    OffsetWordsLength(members, 160);
    BlobIsRead(ToHex(id) + ToHex(Uint(status)), members, 2, 160, 4, signature);
    var input := SETTLE_SELECTOR + args;
    assert Slice(input, 0, 8) == SETTLE_SELECTOR;
    assert Slice(input, 8, |input|) == args;
  }

  // ---- the page's cache of signatures

  /** A lookup of one transaction and what the node answers if it is asked. */
  datatype Lookup = Lookup(txHash: Word, input: Option<Hex>)

  /** What reading the node's answer gives: nothing for an unknown transaction. */
  function Walk(input: Option<Hex>): Result<Option<Hex>, WalkError> {
    match input
    case None => Ok(None)
    case Some(digits) => SettleSignature(digits)
  }

  /** The first lookup of a transaction whose walk did not throw. */
  function FirstReadable(seen: seq<Lookup>, txHash: Word): Option<nat>
    decreases |seen|
  {
    if seen == [] then None
    else
      var front, last := seen[..|seen| - 1], seen[|seen| - 1];
      if FirstReadable(front, txHash).Some? then FirstReadable(front, txHash)
      else if last.txHash == txHash && Walk(last.input).Ok? then Some(|front|)
      else None
  }

  lemma {:induction false} FirstReadableIsFirst(seen: seq<Lookup>, txHash: Word)
    ensures match FirstReadable(seen, txHash)
            case None => forall j :: 0 <= j < |seen| && seen[j].txHash == txHash ==> Walk(seen[j].input).Err?
            case Some(i) => i < |seen| && seen[i].txHash == txHash && Walk(seen[i].input).Ok?
                            && forall j :: 0 <= j < i && seen[j].txHash == txHash ==> Walk(seen[j].input).Err?
    decreases |seen|
  {
    hide Walk;
    if seen != [] {
      FirstReadableIsFirst(seen[..|seen| - 1], txHash);
    }
  }

  /** What the page shows for a lookup after the lookups already made. */
  function Shown(seen: seq<Lookup>, l: Lookup): Result<Option<Hex>, WalkError> {
    FirstReadableIsFirst(seen, l.txHash);
    match FirstReadable(seen, l.txHash)
    case None => Walk(l.input)
    case Some(i) => Walk(seen[i].input)
  }

  /** What is shown is what the node says now exactly when every earlier lookup of the transaction
      threw, or the first that did not gave the same. */
  lemma ShownIsCurrentIff(seen: seq<Lookup>, l: Lookup)
    ensures Shown(seen, l) == Walk(l.input) <==>
              forall i :: (0 <= i < |seen| && seen[i].txHash == l.txHash && Walk(seen[i].input).Ok?
                && (forall j :: 0 <= j < i && seen[j].txHash == l.txHash ==> Walk(seen[j].input).Err?)) ==>
                Walk(seen[i].input) == Walk(l.input)
  {
    hide Walk;
    FirstReadableIsFirst(seen, l.txHash);
  }

  /** A transaction that was unknown when it was first looked up shows no signature ever after. */
  lemma UnknownStaysUnknown(txHash: Word, between: seq<Lookup>, l: Lookup)
    requires l.txHash == txHash
    ensures var seen := [Lookup(txHash, None)] + between;
            Shown(seen, l) == Ok(None) && (Shown(seen, l) == Walk(l.input) <==> Walk(l.input) == Ok(None))
  {
    var seen := [Lookup(txHash, None)] + between;
    hide SettleSignature;
    assert seen[0].txHash == l.txHash && Walk(seen[0].input) == Ok(None);
    FirstReadableIsFirst(seen, txHash);
  }

  class SettleTxCache {
    var entries: map<Word, Option<Hex>>
    ghost var seen: seq<Lookup>

    /** The entries are the answers of the first readable lookups. */
    ghost predicate Valid()
      reads this
    {
      forall txHash: Word ::
        && (txHash in entries <==> FirstReadable(seen, txHash).Some?)
        && (txHash in entries ==> Shown(seen, Lookup(txHash, None)) == Ok(entries[txHash]))
    }

    constructor ()
      ensures Valid() && seen == []
    {
      entries, seen := map[], [];
    }

    method TeeSignature(txHash: Word, transactionInput: Option<Hex>) returns (signature: Result<Option<Hex>, WalkError>)
      requires Valid()
      modifies this
      ensures Valid() && seen == old(seen) + [Lookup(txHash, transactionInput)]
      ensures signature == Shown(old(seen), Lookup(txHash, transactionInput))
      ensures entries == if txHash in old(entries) || signature.Err? then old(entries)
                         else old(entries)[txHash := signature.value]
    {
      hide SettleSignature;
      ghost var l := Lookup(txHash, transactionInput);
      SeenGrows(seen, l);
      FirstReadableIsFirst(seen, txHash);
      seen := seen + [l];
      if txHash in entries {
        return Ok(entries[txHash]);
      }
      signature := Ok(None);
      if transactionInput.Some? {
        signature := SettleSignature(transactionInput.value);
        if signature.Err? {
          return;
        }
      }
      entries := entries[txHash := signature.value];
    }
  }

  /** One more lookup changes what is shown for its own transaction only, and only if none was
      readable before. */
  lemma SeenGrows(seen: seq<Lookup>, l: Lookup)
    ensures forall txHash: Word ::
              var before, after := FirstReadable(seen, txHash), FirstReadable(seen + [l], txHash);
              && after == (if before.Some? then before
                           else if l.txHash == txHash && Walk(l.input).Ok? then Some(|seen|) else None)
              && (after.Some? ==> Shown(seen + [l], Lookup(txHash, None))
                                  == if before.Some? then Shown(seen, Lookup(txHash, None)) else Walk(l.input))
  {
    hide Walk;
    var more := seen + [l];
    assert more[..|seen|] == seen;
    forall txHash: Word
      ensures var before, after := FirstReadable(seen, txHash), FirstReadable(more, txHash);
              && after == (if before.Some? then before
                           else if l.txHash == txHash && Walk(l.input).Ok? then Some(|seen|) else None)
              && (after.Some? ==> Shown(more, Lookup(txHash, None))
                                  == if before.Some? then Shown(seen, Lookup(txHash, None)) else Walk(l.input))
    {
      FirstReadableIsFirst(seen, txHash);
    }
  }
}
