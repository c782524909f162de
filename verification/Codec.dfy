/** The protobuf codec of the network module's stored types. */
module Codec {
  import opened Common
  import opened Bits
  import opened Varint
  import opened Wire

  /** The three message types; a nil bitmap is None. */
  datatype Message =
    | Params(epochLength: uint64, quorumFraction: bytes, minParticipation: bytes, pruneAfter: uint64, signMode: int32)
    | AttestationBitmap(height: int64, bitmap: Option<bytes>, votedPower: uint64, totalPower: uint64,
                        softConfirmed: bool)
    | ValidatorIndex(address: bytes, index: uint32, power: uint64)

  /** The zero value of a message's type. */
  function Zero(m: Message): Message {
    match m
    case Params(_, _, _, _, _) => Params(0, [], [], 0, 0)
    case AttestationBitmap(_, _, _, _, _) => AttestationBitmap(0, None, 0, 0, false)
    case ValidatorIndex(_, _, _) => ValidatorIndex([], 0, 0)
  }

  function Int32ToUint64(x: int32): uint64 {
    if x < 0 then x + TWO_64 else x
  }

  function ToInt32(x: uint32): int32 {
    if x < TWO_31 then x else x - TWO_32
  }

  // ---------------------------------------------------------------- wire format, field by field

  datatype Field = VarintField(num: nat, value: uint64) | BytesField(num: nat, data: bytes)

  function Tag(f: Field): nat {
    8 * f.num + (if f.VarintField? then 0 else 2)
  }

  function EncodeField(f: Field): seq<byte> {
    match f
    case VarintField(_, value) => VarintBytes(Tag(f)) + VarintBytes(value)
    case BytesField(_, data) => VarintBytes(Tag(f)) + (VarintBytes(|data|) + data)
  }

  function EncodeFields(fs: seq<Field>): seq<byte> {
    if fs == [] then [] else EncodeField(fs[0]) + EncodeFields(fs[1..])
  }

  function With(present: bool, f: Field, rest: seq<Field>): seq<Field> {
    if present then [f] + rest else rest
  }

  function BitmapBytes(m: Message): bytes
    requires m.AttestationBitmap?
  {
    if m.bitmap.Some? then m.bitmap.value else []
  }

  /** The fields of a message that differ from zero, by ascending number. */
  function Fields(m: Message): seq<Field> {
    match m
    case Params(e, q, p, a, s) =>
      With(e != 0, VarintField(1, e),
      With(|q| > 0, BytesField(2, q),
      With(|p| > 0, BytesField(3, p),
      With(a != 0, VarintField(4, a),
      With(s != 0, VarintField(5, Int32ToUint64(s)), [])))))
    case AttestationBitmap(h, _, v, t, c) =>
      With(h != 0, VarintField(1, ToUint64(h)),
      With(|BitmapBytes(m)| > 0, BytesField(2, BitmapBytes(m)),
      With(v != 0, VarintField(3, v),
      With(t != 0, VarintField(4, t),
      With(c, VarintField(5, 1), [])))))
    case ValidatorIndex(a, i, p) =>
      With(|a| > 0, BytesField(1, a),
      With(i != 0, VarintField(2, i),
      With(p != 0, VarintField(3, p), [])))
  }

  function Encode(m: Message): seq<byte> {
    EncodeFields(Fields(m))
  }

  // ---------------------------------------------------------------- byte by byte

  /** A field of wire type 0 behind its one-byte tag; zero is left out. */
  function VarintPart(tag: byte, v: uint64): seq<byte> {
    if v == 0 then [] else [tag] + VarintBytes(v)
  }

  /** A field of wire type 2 behind its one-byte tag: length and data; empty data is left out. */
  function BytesPart(tag: byte, data: bytes): seq<byte> {
    if data == [] then [] else [tag] + VarintBytes(|data|) + data
  }

  lemma EncodeVarintPart(num: nat, v: uint64, rest: seq<Field>)
    requires num < 16
    ensures EncodeFields(With(v != 0, VarintField(num, v), rest)) == VarintPart(8 * num, v) + EncodeFields(rest)
  {
    EncodeWith(v != 0, VarintField(num, v), rest);
    VarintFieldSize(num, v);
    assert [] + EncodeFields(rest) == EncodeFields(rest);
  }

  lemma EncodeBytesPart(num: nat, b: bytes, rest: seq<Field>)
    requires num < 16
    ensures EncodeFields(With(|b| > 0, BytesField(num, b), rest)) == BytesPart(8 * num + 2, b) + EncodeFields(rest)
  {
    EncodeWith(|b| > 0, BytesField(num, b), rest);
    BytesFieldSize(num, b);
    if b == [] {
      assert [] + EncodeFields(rest) == EncodeFields(rest);
    } else {
      Associate([8 * num + 2], VarintBytes(|b|), b);
    }
  }

  lemma Associate(a: seq<byte>, b: seq<byte>, c: seq<byte>)
    ensures a + (b + c) == a + b + c
  {
  }

  /** The bytes of every message, tag by tag; negative integers are sign-extended to 64 bits. */
  lemma EncodedBytes(m: Message)
    ensures Encode(m)
         == match m
            case Params(e, q, p, a, s) =>
              VarintPart(0x08, e) + (BytesPart(0x12, q) + (BytesPart(0x1a, p) + (VarintPart(0x20, a) +
              VarintPart(0x28, if s < 0 then s + 0x1_0000_0000_0000_0000 else s))))
            case AttestationBitmap(h, b, v, t, c) =>
              VarintPart(0x08, if h < 0 then h + 0x1_0000_0000_0000_0000 else h) +
              (BytesPart(0x12, if b.Some? then b.value else []) + (VarintPart(0x18, v) + (VarintPart(0x20, t) +
              (if c then [0x28, 0x01] else []))))
            case ValidatorIndex(a, i, p) =>
              BytesPart(0x0a, a) + (VarintPart(0x10, i) + VarintPart(0x18, p))
  {
    match m
    case Params(_, _, _, _, _) => ParamsBytes(m);
    case AttestationBitmap(_, _, _, _, _) => BitmapMessageBytes(m);
    case ValidatorIndex(_, _, _) => IndexBytes(m);
  }

  lemma ParamsBytes(m: Message)
    requires m.Params?
    ensures Encode(m)
         == VarintPart(0x08, m.epochLength) + (BytesPart(0x12, m.quorumFraction) +
            (BytesPart(0x1a, m.minParticipation) + (VarintPart(0x20, m.pruneAfter) +
            VarintPart(0x28, Int32ToUint64(m.signMode)))))
  {
    var Params(e, q, p, a, s) := m;
    var mode := Int32ToUint64(s);
    var f5 := With(mode != 0, VarintField(5, mode), []);
    assert s != 0 <==> mode != 0;
    EncodeVarintPart(5, mode, []);
    assert VarintPart(0x28, mode) + [] == VarintPart(0x28, mode);
    ParamsParts(e, q, p, a, f5);
  }

  lemma ParamsParts(e: uint64, q: bytes, p: bytes, a: uint64, f5: seq<Field>)
    ensures EncodeFields(With(e != 0, VarintField(1, e), With(|q| > 0, BytesField(2, q),
                         With(|p| > 0, BytesField(3, p), With(a != 0, VarintField(4, a), f5)))))
         == VarintPart(0x08, e) + (BytesPart(0x12, q) + (BytesPart(0x1a, p) +
            (VarintPart(0x20, a) + EncodeFields(f5))))
  {
    var f4 := With(a != 0, VarintField(4, a), f5);
    var f3 := With(|p| > 0, BytesField(3, p), f4);
    EncodeVarintPart(4, a, f5);
    EncodeBytesPart(3, p, f4);
    EncodeBytesPart(2, q, f3);
    EncodeVarintPart(1, e, With(|q| > 0, BytesField(2, q), f3));
  }

  lemma BitmapMessageBytes(m: Message)
    requires m.AttestationBitmap?
    ensures Encode(m)
         == VarintPart(0x08, ToUint64(m.height)) + (BytesPart(0x12, BitmapBytes(m)) + (VarintPart(0x18, m.votedPower) +
            (VarintPart(0x20, m.totalPower) + (if m.softConfirmed then [0x28, 0x01] else []))))
  {
    var AttestationBitmap(h, _, v, t, c) := m;
    var b, height := BitmapBytes(m), ToUint64(h);
    var f5 := With(c, VarintField(5, 1), []);
    var f4 := With(t != 0, VarintField(4, t), f5);
    var f3 := With(v != 0, VarintField(3, v), f4);
    var f2 := With(|b| > 0, BytesField(2, b), f3);
    assert h != 0 <==> height != 0;
    assert Fields(m) == With(height != 0, VarintField(1, height), f2);
    FlagSize(c);
    BitmapParts(height, b, v, t, f5);
  }

  lemma BitmapParts(h: uint64, b: bytes, v: uint64, t: uint64, f5: seq<Field>)
    ensures EncodeFields(With(h != 0, VarintField(1, h), With(|b| > 0, BytesField(2, b),
                         With(v != 0, VarintField(3, v), With(t != 0, VarintField(4, t), f5)))))
         == VarintPart(0x08, h) + (BytesPart(0x12, b) + (VarintPart(0x18, v) +
            (VarintPart(0x20, t) + EncodeFields(f5))))
  {
    var f4 := With(t != 0, VarintField(4, t), f5);
    var f3 := With(v != 0, VarintField(3, v), f4);
    EncodeVarintPart(4, t, f5);
    EncodeVarintPart(3, v, f4);
    EncodeBytesPart(2, b, f3);
    EncodeVarintPart(1, h, With(|b| > 0, BytesField(2, b), f3));
  }

  lemma IndexBytes(m: Message)
    requires m.ValidatorIndex?
    ensures Encode(m) == BytesPart(0x0a, m.address) + (VarintPart(0x10, m.index) + VarintPart(0x18, m.power))
  {
    var ValidatorIndex(a, i, p) := m;
    var f3 := With(p != 0, VarintField(3, p), []);
    var f2 := With(i != 0, VarintField(2, i), f3);
    EncodeVarintPart(3, p, []);
    EncodeVarintPart(2, i, f3);
    EncodeBytesPart(1, a, f2);
  }

  // ---------------------------------------------------------------- size

  function VarintSize(v: uint64): nat {
    if v != 0 then 1 + Sov(v) else 0
  }

  function BytesSize(b: bytes): nat {
    if |b| > 0 then 1 + |b| + Sov(|b|) else 0
  }

  /** What Size() computes. */
  function Size(m: Message): nat {
    match m
    case Params(e, q, p, a, s) =>
      VarintSize(e) + BytesSize(q) + BytesSize(p) + VarintSize(a) + VarintSize(Int32ToUint64(s))
    case AttestationBitmap(h, _, v, t, c) =>
      VarintSize(ToUint64(h)) + BytesSize(BitmapBytes(m)) + VarintSize(v) + VarintSize(t) + (if c then 2 else 0)
    case ValidatorIndex(a, i, p) =>
      BytesSize(a) + VarintSize(i) + VarintSize(p)
  }

  lemma EncodeWith(present: bool, f: Field, rest: seq<Field>)
    ensures EncodeFields(With(present, f, rest))
         == if present then EncodeField(f) + EncodeFields(rest) else EncodeFields(rest)
  {
    assert ([f] + rest)[1..] == rest;
  }

  lemma VarintFieldSize(num: nat, v: uint64)
    requires num < 16
    ensures EncodeField(VarintField(num, v)) == [8 * num] + VarintBytes(v)
    ensures |EncodeField(VarintField(num, v))| == 1 + Sov(v)
  {
    SovIsLength(v);
  }

  lemma BytesFieldSize(num: nat, b: bytes)
    requires num < 16
    ensures EncodeField(BytesField(num, b)) == [8 * num + 2] + (VarintBytes(|b|) + b)
    ensures |EncodeField(BytesField(num, b))| == 1 + |b| + Sov(|b|)
  {
    SovIsLength(|b|);
  }

  lemma WithVarintSize(num: nat, v: uint64, rest: seq<Field>)
    requires num < 16
    ensures |EncodeFields(With(v != 0, VarintField(num, v), rest))| == VarintSize(v) + |EncodeFields(rest)|
  {
    EncodeWith(v != 0, VarintField(num, v), rest);
    VarintFieldSize(num, v);
  }

  lemma WithBytesSize(num: nat, b: bytes, rest: seq<Field>)
    requires num < 16
    ensures |EncodeFields(With(|b| > 0, BytesField(num, b), rest))| == BytesSize(b) + |EncodeFields(rest)|
  {
    EncodeWith(|b| > 0, BytesField(num, b), rest);
    BytesFieldSize(num, b);
  }

  lemma SizeOfParams(m: Message)
    requires m.Params?
    ensures Size(m) == |Encode(m)|
  {
    var Params(e, q, p, a, s) := m;
    var f5 := With(s != 0, VarintField(5, Int32ToUint64(s)), []);
    var f4 := With(a != 0, VarintField(4, a), f5);
    var f3 := With(|p| > 0, BytesField(3, p), f4);
    var f2 := With(|q| > 0, BytesField(2, q), f3);
    WithVarintSize(5, Int32ToUint64(s), []);
    WithVarintSize(4, a, f5);
    WithBytesSize(3, p, f4);
    WithBytesSize(2, q, f3);
    WithVarintSize(1, e, f2);
  }

  lemma SizeOfBitmap(m: Message)
    requires m.AttestationBitmap?
    ensures Size(m) == |Encode(m)|
  {
    var AttestationBitmap(h, _, v, t, c) := m;
    var b := BitmapBytes(m);
    var f5 := With(c, VarintField(5, 1), []);
    var f4 := With(t != 0, VarintField(4, t), f5);
    var f3 := With(v != 0, VarintField(3, v), f4);
    var f2 := With(|b| > 0, BytesField(2, b), f3);
    FlagSize(c);
    WithVarintSize(4, t, f5);
    WithVarintSize(3, v, f4);
    WithBytesSize(2, b, f3);
    WithVarintSize(1, ToUint64(h), f2);
  }

  lemma FlagSize(c: bool)
    ensures EncodeFields(With(c, VarintField(5, 1), [])) == if c then [0x28, 1] else []
  {
    EncodeWith(c, VarintField(5, 1), []);
    VarintFieldSize(5, 1);
    assert VarintBytes(1) == [1];
  }

  lemma SizeOfIndex(m: Message)
    requires m.ValidatorIndex?
    ensures Size(m) == |Encode(m)|
  {
    var ValidatorIndex(a, i, p) := m;
    var f3 := With(p != 0, VarintField(3, p), []);
    var f2 := With(i != 0, VarintField(2, i), f3);
    WithVarintSize(3, p, []);
    WithVarintSize(2, i, f3);
    WithBytesSize(1, a, f2);
  }

  /** Size() is the number of bytes on the wire. */
  lemma SizeIsLength(m: Message)
    ensures Size(m) == |Encode(m)|
  {
    match m
    case Params(_, _, _, _, _) => SizeOfParams(m);
    case AttestationBitmap(_, _, _, _, _) => SizeOfBitmap(m);
    case ValidatorIndex(_, _, _) => SizeOfIndex(m);
  }

  // ---------------------------------------------------------------- the backwards encoder

  /** `after` is `before` with `front` written so that it ends at i and starts at i'; nothing else changed. */
  predicate Prepended(before: seq<byte>, after: seq<byte>, i: nat, i': nat, front: seq<byte>) {
    && |before| == |after| && i' + |front| == i <= |before|
    && after[i'..] == front + before[i..]
    && after[..i'] == before[..i']
  }

  /** Two pieces written one before the other. */
  lemma PrependTwice(s0: seq<byte>, s1: seq<byte>, s2: seq<byte>, i: nat, i': nat, i'': nat,
                     last: seq<byte>, front: seq<byte>)
    requires Prepended(s0, s1, i, i', last) && Prepended(s1, s2, i', i'', front)
    ensures Prepended(s0, s2, i, i'', front + last)
  {
    assert s1[..i'][..i''] == s1[..i''] && s0[..i'][..i''] == s0[..i''];
  }

  method PutTag(dAtA: array<byte>, i: nat, tag: byte)
    requires 0 < i <= dAtA.Length
    modifies dAtA
    ensures Prepended(old(dAtA[..]), dAtA[..], i, i - 1, [tag])
  {
    dAtA[i - 1] := tag;
  }

  /** copy(dAtA[at:], b) */
  method PutData(dAtA: array<byte>, i: nat, b: bytes)
    requires |b| <= i <= dAtA.Length
    modifies dAtA
    ensures Prepended(old(dAtA[..]), dAtA[..], i, i - |b|, b)
  {
    var at := i - |b|;
    forall j | 0 <= j < |b| { dAtA[at + j] := b[j]; }
    assert dAtA[..][at..] == b + old(dAtA[..])[i..];
  }

  method PutVarint(dAtA: array<byte>, i: nat, v: uint64) returns (i': nat)
    requires Sov(v) <= i <= dAtA.Length
    modifies dAtA
    ensures Prepended(old(dAtA[..]), dAtA[..], i, i', VarintBytes(v))
  {
    SovIsLength(v);
    i' := EncodeVarint(dAtA, i, v);
    assert dAtA[..][i'..] == dAtA[i'..i] + dAtA[i..];
  }

  method PutVarintField(dAtA: array<byte>, i: nat, tag: byte, v: uint64) returns (i': nat)
    requires 1 + Sov(v) <= i <= dAtA.Length
    modifies dAtA
    ensures Prepended(old(dAtA[..]), dAtA[..], i, i', [tag] + VarintBytes(v))
  {
    SovIsLength(v);
    var base := PutVarint(dAtA, i, v);
    ghost var s1 := dAtA[..];
    PutTag(dAtA, base, tag);
    i' := base - 1;
    PrependTwice(old(dAtA[..]), s1, dAtA[..], i, base, i', VarintBytes(v), [tag]);
  }

  method PutBytesField(dAtA: array<byte>, i: nat, tag: byte, b: bytes) returns (i': nat)
    requires 1 + |b| + Sov(|b|) <= i <= dAtA.Length
    modifies dAtA
    ensures Prepended(old(dAtA[..]), dAtA[..], i, i', [tag] + (VarintBytes(|b|) + b))
  {
    SovIsLength(|b|);
    PutData(dAtA, i, b);
    var at := i - |b|;
    ghost var s1 := dAtA[..];
    var base := PutVarint(dAtA, at, |b|);
    ghost var s2 := dAtA[..];
    PrependTwice(old(dAtA[..]), s1, s2, i, at, base, b, VarintBytes(|b|));
    PutTag(dAtA, base, tag);
    i' := base - 1;
    PrependTwice(old(dAtA[..]), s2, dAtA[..], i, base, i', VarintBytes(|b|) + b, [tag]);
  }

  /** Behind index i the buffer holds the fields written so far; before it, it is untouched. */
  predicate Written(before: seq<byte>, now: seq<byte>, i: nat, fields: seq<Field>) {
    Prepended(before, now, |before|, i, EncodeFields(fields))
  }

  method PutVarintUnlessZero(dAtA: array<byte>, i: nat, tag: byte, v: uint64,
                             ghost num: nat, ghost before: seq<byte>, ghost rest: seq<Field>) returns (i': nat)
    requires VarintSize(v) <= i && num < 16 && tag == 8 * num && Written(before, dAtA[..], i, rest)
    modifies dAtA
    ensures i' == i - VarintSize(v)
    ensures Written(before, dAtA[..], i', With(v != 0, VarintField(num, v), rest))
  {
    EncodeWith(v != 0, VarintField(num, v), rest);
    VarintFieldSize(num, v);
    if v == 0 { return i; }
    ghost var s1 := dAtA[..];
    i' := PutVarintField(dAtA, i, tag, v);
    PrependTwice(before, s1, dAtA[..], |before|, i, i', EncodeFields(rest), [tag] + VarintBytes(v));
  }

  method PutBytesUnlessEmpty(dAtA: array<byte>, i: nat, tag: byte, b: bytes,
                             ghost num: nat, ghost before: seq<byte>, ghost rest: seq<Field>) returns (i': nat)
    requires BytesSize(b) <= i && num < 16 && tag == 8 * num + 2 && Written(before, dAtA[..], i, rest)
    modifies dAtA
    ensures i' == i - BytesSize(b)
    ensures Written(before, dAtA[..], i', With(|b| > 0, BytesField(num, b), rest))
  {
    EncodeWith(|b| > 0, BytesField(num, b), rest);
    BytesFieldSize(num, b);
    if |b| == 0 { return i; }
    ghost var s1 := dAtA[..];
    i' := PutBytesField(dAtA, i, tag, b);
    PrependTwice(before, s1, dAtA[..], |before|, i, i', EncodeFields(rest), [tag] + (VarintBytes(|b|) + b));
  }

  method MarshalParams(m: Message, dAtA: array<byte>) returns (i: nat)
    requires m.Params? && Size(m) <= dAtA.Length
    modifies dAtA
    ensures Written(old(dAtA[..]), dAtA[..], i, Fields(m)) && i == dAtA.Length - Size(m)
  {
    ghost var before := dAtA[..];
    var Params(e, q, p, a, s) := m;
    i := dAtA.Length;
    i := PutVarintUnlessZero(dAtA, i, 0x28, Int32ToUint64(s), 5, before, []);
    ghost var f5 := With(s != 0, VarintField(5, Int32ToUint64(s)), []);
    i := PutVarintUnlessZero(dAtA, i, 0x20, a, 4, before, f5);
    ghost var f4 := With(a != 0, VarintField(4, a), f5);
    i := PutBytesUnlessEmpty(dAtA, i, 0x1a, p, 3, before, f4);
    ghost var f3 := With(|p| > 0, BytesField(3, p), f4);
    i := PutBytesUnlessEmpty(dAtA, i, 0x12, q, 2, before, f3);
    ghost var f2 := With(|q| > 0, BytesField(2, q), f3);
    i := PutVarintUnlessZero(dAtA, i, 0x08, e, 1, before, f2);
  }

  method PutFlag(dAtA: array<byte>, i: nat, c: bool, ghost before: seq<byte>) returns (i': nat)
    requires i == dAtA.Length && before == dAtA[..] && (c ==> i >= 2)
    modifies dAtA
    ensures i' == if c then i - 2 else i
    ensures Written(before, dAtA[..], i', With(c, VarintField(5, 1), []))
  {
    FlagSize(c);
    i' := i;
    if c {
      dAtA[i - 1] := 1;
      dAtA[i - 2] := 0x28;
      i' := i - 2;
    }
  }

  method MarshalAttestationBitmap(m: Message, dAtA: array<byte>) returns (i: nat)
    requires m.AttestationBitmap? && Size(m) <= dAtA.Length
    modifies dAtA
    ensures Written(old(dAtA[..]), dAtA[..], i, Fields(m)) && i == dAtA.Length - Size(m)
  {
    ghost var before := dAtA[..];
    var AttestationBitmap(h, _, v, t, c) := m;
    var b := BitmapBytes(m);
    i := dAtA.Length;
    i := PutFlag(dAtA, i, c, before);
    ghost var f5 := With(c, VarintField(5, 1), []);
    i := PutVarintUnlessZero(dAtA, i, 0x20, t, 4, before, f5);
    ghost var f4 := With(t != 0, VarintField(4, t), f5);
    i := PutVarintUnlessZero(dAtA, i, 0x18, v, 3, before, f4);
    ghost var f3 := With(v != 0, VarintField(3, v), f4);
    i := PutBytesUnlessEmpty(dAtA, i, 0x12, b, 2, before, f3);
    ghost var f2 := With(|b| > 0, BytesField(2, b), f3);
    i := PutVarintUnlessZero(dAtA, i, 0x08, ToUint64(h), 1, before, f2);
  }

  method MarshalValidatorIndex(m: Message, dAtA: array<byte>) returns (i: nat)
    requires m.ValidatorIndex? && Size(m) <= dAtA.Length
    modifies dAtA
    ensures Written(old(dAtA[..]), dAtA[..], i, Fields(m)) && i == dAtA.Length - Size(m)
  {
    ghost var before := dAtA[..];
    var ValidatorIndex(a, n, p) := m;
    i := dAtA.Length;
    i := PutVarintUnlessZero(dAtA, i, 0x18, p, 3, before, []);
    ghost var f3 := With(p != 0, VarintField(3, p), []);
    i := PutVarintUnlessZero(dAtA, i, 0x10, n, 2, before, f3);
    ghost var f2 := With(n != 0, VarintField(2, n), f3);
    i := PutBytesUnlessEmpty(dAtA, i, 0x0a, a, 1, before, f2);
  }

  /** Writes the message into the end of the buffer; n is the number of bytes it takes. */
  method MarshalToSizedBuffer(m: Message, dAtA: array<byte>) returns (n: nat)
    requires Size(m) <= dAtA.Length
    modifies dAtA
    ensures n == Size(m) && dAtA[dAtA.Length - n..] == Encode(m)
    ensures dAtA[..dAtA.Length - n] == old(dAtA[..dAtA.Length - n])
  {
    ghost var before := dAtA[..];
    var i: nat;
    match m {
      case Params(_, _, _, _, _) => i := MarshalParams(m, dAtA);
      case AttestationBitmap(_, _, _, _, _) => i := MarshalAttestationBitmap(m, dAtA);
      case ValidatorIndex(_, _, _) => i := MarshalValidatorIndex(m, dAtA);
    }
    n := dAtA.Length - i;
    WrittenTail(before, dAtA[..], i, Fields(m));
  }

  lemma WrittenTail(before: seq<byte>, now: seq<byte>, i: nat, fields: seq<Field>)
    requires Written(before, now, i, fields) && i <= |before|
    ensures |now| == |before| && now[i..] == EncodeFields(fields) && now[..i] == before[..i]
  {
  }

  /** A buffer of exactly Size() bytes is filled without gap or overlap. */
  method Marshal(m: Message) returns (dAtA: seq<byte>)
    ensures dAtA == Encode(m) && |dAtA| == Size(m)
  {
    SizeIsLength(m);
    var buffer := new byte[Size(m)](_ => 0);
    var n := MarshalToSizedBuffer(m, buffer);
    assert buffer[0..] == buffer[..];
    return buffer[..n];
  }
}
