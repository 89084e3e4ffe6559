/** The encoding of the Solidity Contract ABI Specification, section "Formal Specification of
    the Encoding", for the types this system uses: 32-byte static values, byte strings and
    strings, tuples and arrays. */
module AbiSpec {
  import opened Bytes

  datatype Value =
    | Static(word: Word)
    | Blob(content: Bytes)
    | Tuple(members: seq<Value>)
    | Array(items: seq<Value>)

  predicate IsDynamic(v: Value) {
    match v
    case Static(_) => false
    case Blob(_) => true
    case Tuple(members) => AnyDynamic(members)
    case Array(_) => true
  }

  predicate AnyDynamic(vs: seq<Value>) {
    vs != [] && (IsDynamic(vs[0]) || AnyDynamic(vs[1..]))
  }

  /** Right padding of a byte string to whole words. */
  function PadRight(b: Bytes): (padded: Bytes)
    ensures |padded| % 32 == 0 && |b| <= |padded| < |b| + 32
    ensures padded[..|b|] == b && forall i :: |b| <= i < |padded| ==> padded[i] == 0
  {
    if |b| % 32 == 0 then b else b + ZeroBytes(32 - |b| % 32)
  }

  function Enc(v: Value): Bytes
    decreases v, 1
  {
    match v
    case Static(word) => word
    case Blob(content) => Uint(|content|) + PadRight(content)
    case Tuple(members) => EncAll(members)
    case Array(items) => Uint(|items|) + EncAll(items)
  }

  /** Heads and then tails; also the encoding of an argument list. */
  function EncAll(vs: seq<Value>): Bytes
    decreases vs, 2
  {
    Heads(vs, HeadSize(vs)) + Tails(vs)
  }

  function HeadSize(vs: seq<Value>): nat
    decreases vs, 1
  {
    if vs == [] then 0
    else (if IsDynamic(vs[0]) then 32 else |Enc(vs[0])|) + HeadSize(vs[1..])
  }

  /** A static member stands in the head; a dynamic one leaves the offset of its tail there. */
  function Heads(vs: seq<Value>, offset: nat): Bytes
    decreases vs, 1
  {
    if vs == [] then []
    else if IsDynamic(vs[0]) then Uint(offset) + Heads(vs[1..], offset + |Enc(vs[0])|)
    else Enc(vs[0]) + Heads(vs[1..], offset)
  }

  function Tails(vs: seq<Value>): Bytes
    decreases vs, 1
  {
    if vs == [] then []
    else (if IsDynamic(vs[0]) then Enc(vs[0]) else []) + Tails(vs[1..])
  }

  /** Two values of one type. Arrays of different lengths also have the same type. */
  predicate SameType(a: Value, b: Value)
    decreases a, 1
  {
    match (a, b)
    case (Static(_), Static(_)) => true
    case (Blob(_), Blob(_)) => true
    case (Tuple(m), Tuple(n)) => SameTypes(m, n)
    case (Array(m), Array(n)) => |m| == |n| ==> SameTypes(m, n)
    case _ => false
  }

  predicate SameTypes(a: seq<Value>, b: seq<Value>)
    decreases a, 0
  {
    |a| == |b| && (a != [] ==> SameType(a[0], b[0]) && SameTypes(a[1..], b[1..]))
  }

  /** Every length is one a uint256 can carry. */
  predicate Fits(v: Value)
    decreases v, 1
  {
    match v
    case Static(_) => true
    case Blob(content) => |content| < UINT256_LIMIT
    case Tuple(members) => AllFit(members)
    case Array(items) => |items| < UINT256_LIMIT && AllFit(items)
  }

  predicate AllFit(vs: seq<Value>)
    decreases vs, 0
  {
    vs != [] ==> Fits(vs[0]) && AllFit(vs[1..])
  }

  /** An encoding determines its value, whatever bytes follow it: two values of one type with
      encodings that continue alike are the same value. */
  lemma {:induction false} EncodingIsPrefixFree(a: Value, b: Value, afterA: Bytes, afterB: Bytes)
    requires SameType(a, b) && Fits(a) && Fits(b)
    requires Enc(a) + afterA == Enc(b) + afterB
    ensures a == b && afterA == afterB
    decreases a, 1
  {
    match (a, b)
    case (Static(v), Static(w)) =>
      SplitEqual(v, afterA, w, afterB);
    case (Blob(x), Blob(y)) =>
      SplitAfterLength(|x|, PadRight(x), afterA, |y|, PadRight(y), afterB);
      SplitEqual(PadRight(x), afterA, PadRight(y), afterB);
      assert x == PadRight(x)[..|x|] && y == PadRight(y)[..|y|];
    case (Tuple(m), Tuple(n)) =>
      ArgumentsArePrefixFree(m, n, afterA, afterB);
    case (Array(m), Array(n)) =>
      SplitAfterLength(|m|, EncAll(m), afterA, |n|, EncAll(n), afterB);
      ArgumentsArePrefixFree(m, n, afterA, afterB);
  }

  lemma SplitAfterLength(lengthA: nat, a: Bytes, afterA: Bytes, lengthB: nat, b: Bytes, afterB: Bytes)
    requires lengthA < UINT256_LIMIT && lengthB < UINT256_LIMIT
    requires Uint(lengthA) + a + afterA == Uint(lengthB) + b + afterB
    ensures lengthA == lengthB && a + afterA == b + afterB
  {
    var u, v := Uint(lengthA), Uint(lengthB);
    ConcatAssociative(u, a, afterA);
    ConcatAssociative(v, b, afterB);
    SplitEqual(u, a + afterA, v, b + afterB);
    UintIsInjective(lengthA, lengthB);
  }

  lemma UintIsInjective(m: nat, n: nat)
    requires m < UINT256_LIMIT && n < UINT256_LIMIT && Uint(m) == Uint(n)
    ensures m == n
  {
    UintRoundTrip(m);
    UintRoundTrip(n);
  }

  lemma {:induction false} ArgumentsArePrefixFree(a: seq<Value>, b: seq<Value>, afterA: Bytes, afterB: Bytes)
    requires SameTypes(a, b) && AllFit(a) && AllFit(b)
    requires EncAll(a) + afterA == EncAll(b) + afterB
    ensures a == b && afterA == afterB
    decreases a, 3
  {
    HeadsLength(a, HeadSize(a));
    HeadsLength(b, HeadSize(b));
    SameHeadSize(a, b);
    var headsA, headsB := Heads(a, HeadSize(a)), Heads(b, HeadSize(b));
    assert headsA + (Tails(a) + afterA) == EncAll(a) + afterA;
    assert headsB + (Tails(b) + afterB) == EncAll(b) + afterB;
    SplitEqual(headsA, Tails(a) + afterA, headsB, Tails(b) + afterB);
    MembersAgree(a, b, HeadSize(a), HeadSize(b), afterA, afterB);
  }

  lemma {:induction false} HeadsLength(vs: seq<Value>, offset: nat)
    ensures |Heads(vs, offset)| == HeadSize(vs)
    decreases vs
  {
    if vs != [] {
      HeadsLength(vs[1..], offset + |Enc(vs[0])|);
      HeadsLength(vs[1..], offset);
    }
  }

  lemma {:induction false} SameTypeSameDynamics(a: Value, b: Value)
    requires SameType(a, b)
    ensures IsDynamic(a) == IsDynamic(b)
    ensures !IsDynamic(a) ==> |Enc(a)| == |Enc(b)|
    decreases a, 1
  {
    if a.Tuple? {
      SameTypesSameDynamics(a.members, b.members);
      HeadsLength(a.members, HeadSize(a.members));
      HeadsLength(b.members, HeadSize(b.members));
      if !IsDynamic(a) {
        NoTails(a.members);
        NoTails(b.members);
      }
    }
  }

  lemma {:induction false} SameTypesSameDynamics(a: seq<Value>, b: seq<Value>)
    requires SameTypes(a, b)
    ensures AnyDynamic(a) == AnyDynamic(b)
    ensures HeadSize(a) == HeadSize(b)
    decreases a, 0
  {
    if a != [] {
      SameTypeSameDynamics(a[0], b[0]);
      SameTypesSameDynamics(a[1..], b[1..]);
    }
  }

  lemma SameHeadSize(a: seq<Value>, b: seq<Value>)
    requires SameTypes(a, b)
    ensures HeadSize(a) == HeadSize(b)
  {
    SameTypesSameDynamics(a, b);
  }

  lemma {:induction false} NoTails(vs: seq<Value>)
    requires !AnyDynamic(vs)
    ensures Tails(vs) == []
    decreases vs
  {
    if vs != [] {
      NoTails(vs[1..]);
    }
  }

  /** Static members are compared in the heads, dynamic ones in the tails; the offsets
      themselves carry nothing. */
  lemma {:induction false} MembersAgree(
    a: seq<Value>, b: seq<Value>, offsetA: nat, offsetB: nat, afterA: Bytes, afterB: Bytes)
    requires SameTypes(a, b) && AllFit(a) && AllFit(b)
    requires Heads(a, offsetA) == Heads(b, offsetB)
    requires Tails(a) + afterA == Tails(b) + afterB
    ensures a == b && afterA == afterB
    decreases a, 2
  {
    if a == [] {
      assert Tails(a) + afterA == afterA && Tails(b) + afterB == afterB;
    } else {
      SameTypeSameDynamics(a[0], b[0]);
      if IsDynamic(a[0]) {
        var nextA, nextB := offsetA + |Enc(a[0])|, offsetB + |Enc(b[0])|;
        ConcatAssociative(Enc(a[0]), Tails(a[1..]), afterA);
        ConcatAssociative(Enc(b[0]), Tails(b[1..]), afterB);
        EncodingIsPrefixFree(a[0], b[0], Tails(a[1..]) + afterA, Tails(b[1..]) + afterB);
        SplitEqual(Uint(offsetA), Heads(a[1..], nextA), Uint(offsetB), Heads(b[1..], nextB));
        MembersAgree(a[1..], b[1..], nextA, nextB, afterA, afterB);
      } else {
        EncodingIsPrefixFree(a[0], b[0], Heads(a[1..], offsetA), Heads(b[1..], offsetB));
        SkipStaticTail(a);
        SkipStaticTail(b);
        MembersAgree(a[1..], b[1..], offsetA, offsetB, afterA, afterB);
      }
      assert a == [a[0]] + a[1..] && b == [b[0]] + b[1..];
    }
  }

  lemma SkipStaticTail(vs: seq<Value>)
    requires vs != [] && !IsDynamic(vs[0])
    ensures Tails(vs) == Tails(vs[1..])
  {
    assert Tails(vs) == [] + Tails(vs[1..]);
  }

  /** Encoding an argument list is injective on each type. */
  lemma EncodingIsInjective(a: seq<Value>, b: seq<Value>)
    requires SameTypes(a, b) && AllFit(a) && AllFit(b)
    requires EncAll(a) == EncAll(b)
    ensures a == b
  {
    assert EncAll(a) + [] == EncAll(b) + [];
    ArgumentsArePrefixFree(a, b, [], []);
  }

  lemma {:induction false} SameBlobTypes(a: seq<Value>, b: seq<Value>)
    requires |a| == |b|
    requires forall i :: 0 <= i < |a| ==> a[i].Blob? && b[i].Blob?
    ensures SameTypes(a, b)
  {
    if a != [] {
      SameBlobTypes(a[1..], b[1..]);
    }
  }

  lemma {:induction false} ShortBlobsFit(vs: seq<Value>)
    requires forall i :: 0 <= i < |vs| ==> vs[i].Blob? && |vs[i].content| < UINT256_LIMIT
    ensures AllFit(vs)
  {
    if vs != [] {
      assert Fits(vs[0]);
      ShortBlobsFit(vs[1..]);
    }
  }

  lemma LoneTuples(a: seq<Value>, b: seq<Value>)
    requires SameTypes(a, b) && AllFit(a) && AllFit(b)
    ensures SameTypes([Tuple(a)], [Tuple(b)]) && AllFit([Tuple(a)]) && AllFit([Tuple(b)])
  {
    assert SameType(Tuple(a), Tuple(b)) && Fits(Tuple(a)) && Fits(Tuple(b));
    assert [Tuple(a)][1..] == [] && [Tuple(b)][1..] == [];
  }

  /** A lone dynamic argument is the offset 32 and then its encoding. */
  lemma LoneDynamic(v: Value)
    requires IsDynamic(v)
    ensures EncAll([v]) == Uint(32) + Enc(v)
  {
    assert [v][1..] == [];
    assert HeadSize([v]) == 32 + HeadSize([]) == 32;
    assert Heads([v], 32) == Uint(32) + Heads([], 32 + |Enc(v)|) == Uint(32);
    assert Tails([v]) == Enc(v) + Tails([]) == Enc(v);
  }

  lemma StaticFirst(word: Word, rest: seq<Value>, offset: nat)
    ensures HeadSize([Static(word)] + rest) == 32 + HeadSize(rest)
    ensures Heads([Static(word)] + rest, offset) == word + Heads(rest, offset)
    ensures Tails([Static(word)] + rest) == Tails(rest)
  {
    assert ([Static(word)] + rest)[1..] == rest;
    assert Tails([Static(word)] + rest) == [] + Tails(rest);
  }

  lemma ThreeStatics(a: Word, b: Word, c: Word)
    ensures EncAll([Static(a), Static(b), Static(c)]) == a + b + c
  {
    var one, two := [Static(c)] + [], [Static(b)] + ([Static(c)] + []);
    var three := [Static(a)] + two;
    assert three == [Static(a), Static(b), Static(c)];
    assert EncAll(three) == Heads(three, HeadSize(three)) + Tails(three);
    assert HeadSize([]) == 0 && Heads([], 96) == [] && Tails([]) == [];
    hide Enc, IsDynamic, Heads, Tails, HeadSize, EncAll;
    StaticFirst(c, [], 96);
    StaticFirst(b, one, 96);
    StaticFirst(a, two, 96);
    ThreeConcatenated(a, b, c);
  }

  lemma ThreeConcatenated(a: Bytes, b: Bytes, c: Bytes)
    ensures a + (b + (c + [])) + [] == a + b + c
  {
  }

  /** Byte strings and arrays start with their length; a byte string goes on with its bytes. */
  lemma LengthsComeFirst(content: Bytes, items: seq<Value>)
    ensures Enc(Blob(content))[..32] == Uint(|content|) && Enc(Array(items))[..32] == Uint(|items|)
    ensures |Enc(Blob(content))| >= 32 + |content| && Enc(Blob(content))[32..32 + |content|] == content
    ensures |Enc(Blob(content))| % 32 == 0
    ensures Enc(Array(items))[32..] == EncAll(items)
  {
    hide Uint;
    var padded := PadRight(content);
    assert (Uint(|content|) + padded)[32..32 + |content|] == padded[..|content|];
  }

  /** Where a member's head stands. */
  function HeadAt(vs: seq<Value>, i: nat): nat
    requires i < |vs|
  {
    if i == 0 then 0 else (if IsDynamic(vs[0]) then 32 else |Enc(vs[0])|) + HeadAt(vs[1..], i - 1)
  }

  function HeadLength(v: Value): nat {
    if IsDynamic(v) then 32 else |Enc(v)|
  }

  /** Where a dynamic member's encoding starts, the first one starting at `offset`. */
  function TailAt(vs: seq<Value>, i: nat, offset: nat): nat
    requires i < |vs|
  {
    if i == 0 then offset else TailAt(vs[1..], i - 1, if IsDynamic(vs[0]) then offset + |Enc(vs[0])| else offset)
  }

  lemma {:induction false} HeadIsThere(vs: seq<Value>, i: nat, offset: nat)
    requires i < |vs|
    ensures HeadAt(vs, i) + HeadLength(vs[i]) <= |Heads(vs, offset)|
    ensures Heads(vs, offset)[HeadAt(vs, i)..HeadAt(vs, i) + HeadLength(vs[i])]
            == if IsDynamic(vs[i]) then Uint(TailAt(vs, i, offset)) else Enc(vs[i])
    decreases i
  {
    hide Uint, Enc, IsDynamic;
    var first: Bytes := if IsDynamic(vs[0]) then Uint(offset) else Enc(vs[0]);
    var next := if IsDynamic(vs[0]) then offset + |Enc(vs[0])| else offset;
    var rest := Heads(vs[1..], next);
    assert Heads(vs, offset) == first + rest && |first| == HeadLength(vs[0]);
    if i > 0 {
      assert vs[1..][i - 1] == vs[i];
      HeadIsThere(vs[1..], i - 1, next);
      assert TailAt(vs, i, offset) == TailAt(vs[1..], i - 1, next);
      var at, length := HeadAt(vs[1..], i - 1), HeadLength(vs[i]);
      assert HeadAt(vs, i) == |first| + at;
      hide HeadAt, HeadLength, Heads, TailAt;
      ShiftedSlice(first, rest, at, length, HeadAt(vs, i));
    } else {
      UnshiftedSlice(first, rest, 0, |first|);
    }
  }

  lemma ShiftedSlice(first: Bytes, rest: Bytes, at: nat, length: nat, start: nat)
    requires at + length <= |rest| && start == |first| + at
    ensures start + length <= |first + rest| && (first + rest)[start..start + length] == rest[at..at + length]
  {
  }

  lemma UnshiftedSlice(first: Bytes, rest: Bytes, at: nat, length: nat)
    requires at + length <= |first|
    ensures (first + rest)[at..at + length] == first[at..at + length]
  {
  }

  lemma {:induction false} TailIsThere(vs: seq<Value>, i: nat, offset: nat)
    requires i < |vs| && IsDynamic(vs[i])
    ensures offset <= TailAt(vs, i, offset) && TailAt(vs, i, offset) - offset + |Enc(vs[i])| <= |Tails(vs)|
    ensures var start := TailAt(vs, i, offset) - offset; Tails(vs)[start..start + |Enc(vs[i])|] == Enc(vs[i])
    decreases i
  {
    hide Enc, IsDynamic;
    var first: Bytes := if IsDynamic(vs[0]) then Enc(vs[0]) else [];
    var rest := Tails(vs[1..]);
    assert Tails(vs) == first + rest;
    if i > 0 {
      var next := offset + |first|;
      assert vs[1..][i - 1] == vs[i];
      TailIsThere(vs[1..], i - 1, next);
      assert TailAt(vs, i, offset) == TailAt(vs[1..], i - 1, next);
      var at: nat, start: nat := TailAt(vs[1..], i - 1, next) - next, TailAt(vs, i, offset) - offset;
      hide TailAt, Tails;
      ShiftedSlice(first, rest, at, |Enc(vs[i])|, start);
    } else {
      UnshiftedSlice(first, rest, 0, |first|);
    }
  }

  /** Every member is found through its head: a static member stands there, a dynamic one where the
      offset says, counted from the start of the list. */
  lemma MemberIsFound(vs: seq<Value>, i: nat)
    requires i < |vs|
    ensures HeadAt(vs, i) + HeadLength(vs[i]) <= |EncAll(vs)|
    ensures var head := EncAll(vs)[HeadAt(vs, i)..HeadAt(vs, i) + HeadLength(vs[i])];
            if !IsDynamic(vs[i]) then head == Enc(vs[i])
            else
              var start := TailAt(vs, i, HeadSize(vs));
              head == Uint(start) && start + |Enc(vs[i])| <= |EncAll(vs)| && EncAll(vs)[start..start + |Enc(vs[i])|] == Enc(vs[i])
  {
    hide Uint, Enc, IsDynamic, Heads, Tails, HeadAt, TailAt, HeadSize;
    var heads, tails := Heads(vs, HeadSize(vs)), Tails(vs);
    HeadIsThere(vs, i, HeadSize(vs));
    HeadsLength(vs, HeadSize(vs));
    UnshiftedSlice(heads, tails, HeadAt(vs, i), HeadLength(vs[i]));
    if IsDynamic(vs[i]) {
      TailIsThere(vs, i, HeadSize(vs));
      var start: nat := TailAt(vs, i, HeadSize(vs));
      ShiftedSlice(heads, tails, start - |heads|, |Enc(vs[i])|, start);
    }
  }
}
