/** What decoding makes of encoded messages, of concatenations and of unknown fields. */
module CodecRuns {
  import opened Common
  import opened Bits
  import opened Varint
  import opened Wire
  import opened Codec
  import opened Decoder

  // ---------------------------------------------------------------- round trip

  function WireType(f: Field): nat {
    if f.VarintField? then 0 else 2
  }

  function Set(m: Message, f: Field): Message {
    match f
    case VarintField(num, v) => SetVarint(m, num, v)
    case BytesField(num, data) => SetBytes(m, num, data)
  }

  function SetAll(m: Message, fs: seq<Field>): Message
    decreases |fs|
  {
    if fs == [] then m else SetAll(Set(m, fs[0]), fs[1..])
  }

  predicate KnownField(m: Message, f: Field) {
    0 < f.num < 16 && Expected(m, f.num) == Some(WireType(f))
  }

  predicate KnownFields(m: Message, fs: seq<Field>) {
    forall i :: 0 <= i < |fs| ==> KnownField(m, fs[i])
  }

  /** Assigning a field leaves the type of the message, so the same fields stay known. */
  lemma SetKeepsType(m: Message, f: Field, num: int)
    ensures Expected(Set(m, f), num) == Expected(m, num)
  {
  }

  lemma DelimitedRoundTrip(data: bytes, rest: seq<byte>, s: seq<byte>, total: nat)
    requires Decode(s) == Ok((|data|, data + rest))
    ensures Delimited(s, total) == Ok((data, rest))
  {
    assert (data + rest)[..|data|] == data && (data + rest)[|data|..] == rest;
  }

  lemma TagNumbers(f: Field)
    requires 0 < f.num < 16
    ensures FieldNum(Tag(f)) == f.num && Tag(f) % 8 == WireType(f)
  {
  }

  lemma TagRoundTrip(m: Message, f: Field, tail: seq<byte>, total: nat)
    requires KnownField(m, f)
    ensures DecodeField(m, VarintBytes(Tag(f)) + tail, total) == Assign(m, f.num, WireType(f), tail, total)
  {
    TagNumbers(f);
    VarintRoundTrip(Tag(f), tail);
  }

  lemma VarintPayloadRoundTrip(m: Message, num: int, v: uint64, rest: seq<byte>, total: nat)
    requires Expected(m, num) == Some(0)
    ensures Assign(m, num, 0, VarintBytes(v) + rest, total) == Ok((SetVarint(m, num, v), rest))
  {
    VarintRoundTrip(v, rest);
  }

  lemma BytesPayloadRoundTrip(m: Message, num: int, data: bytes, rest: seq<byte>, total: nat)
    requires Expected(m, num) == Some(2)
    ensures Assign(m, num, 2, VarintBytes(|data|) + (data + rest), total) == Ok((SetBytes(m, num, data), rest))
  {
    VarintRoundTrip(|data|, data + rest);
    DelimitedRoundTrip(data, rest, VarintBytes(|data|) + (data + rest), total);
  }

  /** An encoded known field is read back, and nothing behind it is touched. */
  lemma FieldRoundTrip(m: Message, f: Field, rest: seq<byte>, total: nat)
    requires KnownField(m, f)
    ensures DecodeField(m, EncodeField(f) + rest, total) == Ok((Set(m, f), rest))
  {
    var tag := VarintBytes(Tag(f));
    match f
    case VarintField(num, v) =>
      assert EncodeField(f) + rest == tag + (VarintBytes(v) + rest);
      TagRoundTrip(m, f, VarintBytes(v) + rest, total);
      VarintPayloadRoundTrip(m, num, v, rest, total);
    case BytesField(num, data) =>
      assert EncodeField(f) + rest == tag + (VarintBytes(|data|) + (data + rest));
      TagRoundTrip(m, f, VarintBytes(|data|) + (data + rest), total);
      BytesPayloadRoundTrip(m, num, data, rest, total);
  }

  lemma {:induction false} FieldsRoundTrip(m: Message, fs: seq<Field>, total: nat)
    requires KnownFields(m, fs)
    ensures UnmarshalFrom(m, EncodeFields(fs), total) == Ok(SetAll(m, fs))
    decreases |fs|
  {
    if fs != [] {
      var rest := EncodeFields(fs[1..]);
      FieldRoundTrip(m, fs[0], rest, total);
      assert UnmarshalFrom(m, EncodeFields(fs), total) == UnmarshalFrom(Set(m, fs[0]), rest, total);
      forall i | 0 <= i < |fs[1..]| ensures KnownField(Set(m, fs[0]), fs[1..][i]) {
        SetKeepsType(m, fs[0], fs[i + 1].num);
      }
      FieldsRoundTrip(Set(m, fs[0]), fs[1..], total);
    }
  }

  /** What a message reads back as: an empty bitmap becomes nil. */
  function Normal(m: Message): Message {
    if m.AttestationBitmap? && m.bitmap == Some([]) then m.(bitmap := None) else m
  }

  lemma SetWith(m: Message, present: bool, f: Field, rest: seq<Field>)
    ensures SetAll(m, With(present, f, rest)) == SetAll(if present then Set(m, f) else m, rest)
  {
    assert ([f] + rest)[1..] == rest;
  }

  lemma SetParams(m: Message)
    requires m.Params?
    ensures SetAll(Zero(m), Fields(m)) == m
  {
    var Params(e, q, p, a, s) := m;
    var f5 := With(s != 0, VarintField(5, Int32ToUint64(s)), []);
    var f4 := With(a != 0, VarintField(4, a), f5);
    var f3 := With(|p| > 0, BytesField(3, p), f4);
    var f2 := With(|q| > 0, BytesField(2, q), f3);
    SetWith(Params(0, [], [], 0, 0), e != 0, VarintField(1, e), f2);
    SetWith(Params(e, [], [], 0, 0), |q| > 0, BytesField(2, q), f3);
    SetWith(Params(e, q, [], 0, 0), |p| > 0, BytesField(3, p), f4);
    SetWith(Params(e, q, p, 0, 0), a != 0, VarintField(4, a), f5);
    SetWith(Params(e, q, p, a, 0), s != 0, VarintField(5, Int32ToUint64(s)), []);
    assert ToInt32(Uint32(Int32ToUint64(s))) == s;
  }

  lemma SetBitmap(m: Message)
    requires m.AttestationBitmap?
    ensures SetAll(Zero(m), Fields(m)) == Normal(m)
  {
    var AttestationBitmap(h, _, v, t, c) := m;
    var b, n := BitmapBytes(m), Normal(m).bitmap;
    var f5 := With(c, VarintField(5, 1), []);
    var f4 := With(t != 0, VarintField(4, t), f5);
    var f3 := With(v != 0, VarintField(3, v), f4);
    var f2 := With(|b| > 0, BytesField(2, b), f3);
    SetWith(AttestationBitmap(0, None, 0, 0, false), h != 0, VarintField(1, ToUint64(h)), f2);
    SetWith(AttestationBitmap(h, None, 0, 0, false), |b| > 0, BytesField(2, b), f3);
    SetWith(AttestationBitmap(h, n, 0, 0, false), v != 0, VarintField(3, v), f4);
    SetWith(AttestationBitmap(h, n, v, 0, false), t != 0, VarintField(4, t), f5);
    SetWith(AttestationBitmap(h, n, v, t, false), c, VarintField(5, 1), []);
  }

  lemma SetIndex(m: Message)
    requires m.ValidatorIndex?
    ensures SetAll(Zero(m), Fields(m)) == m
  {
    var ValidatorIndex(a, i, p) := m;
    var f3 := With(p != 0, VarintField(3, p), []);
    var f2 := With(i != 0, VarintField(2, i), f3);
    SetWith(ValidatorIndex([], 0, 0), |a| > 0, BytesField(1, a), f2);
    SetWith(ValidatorIndex(a, 0, 0), i != 0, VarintField(2, i), f3);
    SetWith(ValidatorIndex(a, i, 0), p != 0, VarintField(3, p), []);
  }

  lemma KnownWith(m: Message, present: bool, f: Field, rest: seq<Field>)
    requires KnownField(m, f) && KnownFields(m, rest)
    ensures KnownFields(m, With(present, f, rest))
  {
  }

  lemma FieldsKnown(m: Message)
    ensures KnownFields(Zero(m), Fields(m))
  {
    var z := Zero(m);
    match m
    case Params(e, q, p, a, s) =>
      var f5 := With(s != 0, VarintField(5, Int32ToUint64(s)), []);
      var f4 := With(a != 0, VarintField(4, a), f5);
      var f3 := With(|p| > 0, BytesField(3, p), f4);
      var f2 := With(|q| > 0, BytesField(2, q), f3);
      KnownWith(z, s != 0, VarintField(5, Int32ToUint64(s)), []);
      KnownWith(z, a != 0, VarintField(4, a), f5);
      KnownWith(z, |p| > 0, BytesField(3, p), f4);
      KnownWith(z, |q| > 0, BytesField(2, q), f3);
      KnownWith(z, e != 0, VarintField(1, e), f2);
    case AttestationBitmap(h, _, v, t, c) =>
      var b := BitmapBytes(m);
      var f5 := With(c, VarintField(5, 1), []);
      var f4 := With(t != 0, VarintField(4, t), f5);
      var f3 := With(v != 0, VarintField(3, v), f4);
      var f2 := With(|b| > 0, BytesField(2, b), f3);
      KnownWith(z, c, VarintField(5, 1), []);
      KnownWith(z, t != 0, VarintField(4, t), f5);
      KnownWith(z, v != 0, VarintField(3, v), f4);
      KnownWith(z, |b| > 0, BytesField(2, b), f3);
      KnownWith(z, h != 0, VarintField(1, ToUint64(h)), f2);
    case ValidatorIndex(a, i, p) =>
      var f3 := With(p != 0, VarintField(3, p), []);
      var f2 := With(i != 0, VarintField(2, i), f3);
      KnownWith(z, p != 0, VarintField(3, p), []);
      KnownWith(z, i != 0, VarintField(2, i), f3);
      KnownWith(z, |a| > 0, BytesField(1, a), f2);
  }

  lemma SetsNormal(m: Message)
    ensures SetAll(Zero(m), Fields(m)) == Normal(m) && KnownFields(Zero(m), Fields(m))
  {
    FieldsKnown(m);
    match m
    case Params(_, _, _, _, _) => SetParams(m);
    case AttestationBitmap(_, _, _, _, _) => SetBitmap(m);
    case ValidatorIndex(_, _, _) => SetIndex(m);
  }

  /** Decoding an encoded message into a zero value gives the message back, an empty bitmap as nil. */
  lemma RoundTrip(m: Message)
    ensures UnmarshalFrom(Zero(m), Encode(m), |Encode(m)|) == Ok(Normal(m))
  {
    SetsNormal(m);
    var fs, total := Fields(m), |Encode(m)|;
    FieldsRoundTrip(Zero(m), fs, total);
    assert Encode(m) == EncodeFields(fs);
  }

  /** Two messages of one type have the same bytes only when they differ in nothing but an empty bitmap. */
  lemma EncodingDetermines(a: Message, b: Message)
    requires Zero(a) == Zero(b)
    ensures Encode(a) == Encode(b) <==> Normal(a) == Normal(b)
  {
    RoundTrip(a);
    RoundTrip(b);
    EncodeNormal(a);
    EncodeNormal(b);
  }

  lemma EncodeNormal(m: Message)
    ensures Encode(m) == Encode(Normal(m))
  {
    assert Fields(m) == Fields(Normal(m));
  }

  // ---------------------------------------------------------------- concatenation merges

  lemma DecodePrefix(s: seq<byte>, more: seq<byte>)
    requires Decode(s).Ok?
    ensures Decode(s + more) == Ok((Decode(s).value.0, Decode(s).value.1 + more))
  {
    RawPrefix(s, 0, more);
  }

  /** A place inside the input, with more input behind it. */
  predicate Followed(a: Decoded<(Place, nat)>, b: Decoded<(Place, nat)>, more: seq<byte>) {
    a.Ok? && a.value.0.Within? ==> b == Ok((Within(a.value.0.rest + more), a.value.1))
  }

  lemma AdvancePrefix(s: seq<byte>, n: nat, more: seq<byte>)
    requires n <= |s|
    ensures Advance(s + more, n) == Within(s[n..] + more)
  {
    assert (s + more)[n..] == s[n..] + more;
  }

  lemma PayloadPrefix(s: seq<byte>, wt: nat, depth: nat, more: seq<byte>)
    ensures Followed(Payload(s, wt, depth), Payload(s + more, wt, depth), more)
  {
    if (wt == 0 || wt == 2) && Decode(s).Ok? {
      DecodePrefix(s, more);
      var (v, tail) := Decode(s).value;
      if v <= |tail| { AdvancePrefix(tail, v, more); }
    }
    if wt == 1 && 8 <= |s| { AdvancePrefix(s, 8, more); }
    if wt == 5 && 4 <= |s| { AdvancePrefix(s, 4, more); }
  }

  lemma ItemPrefix(s: seq<byte>, t: nat, t': nat, depth: nat, more: seq<byte>)
    ensures Followed(Item(s, t, depth), Item(s + more, t', depth), more)
  {
    if Decode(s).Ok? {
      DecodePrefix(s, more);
      var (wire, tail) := Decode(s).value;
      PayloadPrefix(tail, wire % 8, depth, more);
    }
  }

  lemma {:induction false} SkipPrefix(s: seq<byte>, t: nat, t': nat, depth: nat, more: seq<byte>, rest: seq<byte>)
    requires SkipFrom(s, t, depth) == Ok(Within(rest))
    ensures SkipFrom(s + more, t', depth) == Ok(Within(rest + more))
    decreases |s|
  {
    ItemPrefix(s, t, t', depth, more);
    var (place, depth') := Item(s, t, depth).value;
    if depth' != 0 {
      SkipPrefix(place.rest, t, t', depth', more, rest);
    }
  }

  lemma AssignPrefix(m: Message, num: int, wt: nat, s: seq<byte>, t: nat, t': nat, more: seq<byte>)
    requires Assign(m, num, wt, s, t).Ok?
    ensures Assign(m, num, wt, s + more, t')
         == Ok((Assign(m, num, wt, s, t).value.0, Assign(m, num, wt, s, t).value.1 + more))
  {
    DecodePrefix(s, more);
    if wt != 0 {
      var (v, tail) := Decode(s).value;
      assert (tail + more)[..v] == tail[..v] && (tail + more)[v..] == tail[v..] + more;
    }
  }

  /** A field reads the same with more input behind it. */
  lemma FieldPrefix(m: Message, s: seq<byte>, t: nat, t': nat, more: seq<byte>)
    requires DecodeField(m, s, t).Ok?
    ensures DecodeField(m, s + more, t')
         == Ok((DecodeField(m, s, t).value.0, DecodeField(m, s, t).value.1 + more))
  {
    DecodePrefix(s, more);
    var (wire, tail) := Decode(s).value;
    if Expected(m, FieldNum(wire)) == None {
      SkipPrefix(s, |s|, |s + more|, 0, more, SkipUnknown(s, t).value);
    } else {
      AssignPrefix(m, FieldNum(wire), wire % 8, tail, t, t', more);
    }
  }

  /** Decoding a concatenation is decoding its second part into what the first one left. */
  lemma {:induction false} ConcatMerges(m: Message, a: seq<byte>, b: seq<byte>, t: nat, t': nat)
    requires UnmarshalFrom(m, a, t).Ok?
    ensures UnmarshalFrom(m, a + b, t') == UnmarshalFrom(UnmarshalFrom(m, a, t).value, b, t')
    decreases |a|
  {
    if a == [] {
      assert a + b == b;
    } else {
      FieldPrefix(m, a, t, t', b);
      var (m', rest) := DecodeField(m, a, t).value;
      ConcatMerges(m', rest, b, t, t');
    }
  }

  /** The same message, or two errors: the kind of error may depend on how much input there is. */
  predicate SameOutcome(a: Decoded<Message>, b: Decoded<Message>) {
    a == b || (a.Err? && b.Err?)
  }

  lemma TotalIrrelevant(m: Message, s: seq<byte>, t: nat, t': nat)
    ensures SameOutcome(UnmarshalFrom(m, s, t), UnmarshalFrom(m, s, t'))
  {
    assert s + [] == s;
    if UnmarshalFrom(m, s, t).Ok? { ConcatMerges(m, s, [], t, t'); }
    if UnmarshalFrom(m, s, t').Ok? { ConcatMerges(m, s, [], t', t); }
  }

  // ---------------------------------------------------------------- unknown fields

  /** A well-formed field with a number the message does not know. */
  predicate UnknownTo(m: Message, u: WireField) {
    && WellFormed(u)
    && FieldNum(Decode(u.tag).value.0) > 0
    && Expected(m, FieldNum(Decode(u.tag).value.0)) == None
  }

  lemma TagFirst(u: WireField, rest: seq<byte>)
    requires WellFormed(u)
    ensures Decode(Bytes(u) + rest).Ok?
    ensures Decode(Bytes(u) + rest).value.0 == Decode(u.tag).value.0 && Decode(u.tag).value.0 % 8 != 4
  {
    var tail := Body(u) + rest;
    assert Bytes(u) + rest == u.tag + tail;
    HeadVarint(u.tag, tail);
  }

  lemma UnknownSkipped(m: Message, u: WireField, rest: seq<byte>, total: nat)
    requires UnknownTo(m, u) && |Bytes(u) + rest| <= MAX_INT64
    ensures Bytes(u) != [] && DecodeField(m, Bytes(u) + rest, total) == Ok((m, rest))
  {
    var s := Bytes(u) + rest;
    TagFirst(u, rest);
    SkipField(u, rest, s, |s|, 0);
  }

  /** A well-formed unknown field between fields, nested groups included, does not change what is decoded. */
  lemma UnknownIgnored(m: Message, a: seq<byte>, u: WireField, b: seq<byte>)
    requires UnmarshalFrom(m, a, |a|).Ok? && UnknownTo(m, u) && |Bytes(u) + b| <= MAX_INT64
    ensures SameOutcome(UnmarshalFrom(m, a + (Bytes(u) + b), |a + (Bytes(u) + b)|), UnmarshalFrom(m, a + b, |a + b|))
  {
    var t, t' := |a + (Bytes(u) + b)|, |a + b|;
    var m1 := UnmarshalFrom(m, a, |a|).value;
    ConcatMerges(m, a, Bytes(u) + b, |a|, t);
    ConcatMerges(m, a, b, |a|, t');
    SameType(m, a, |a|);
    UnknownSkipped(m1, u, b, t);
    TotalIrrelevant(m1, b, t, t');
  }

  /** Decoding keeps the type of the message. */
  lemma {:induction false} SameType(m: Message, s: seq<byte>, t: nat)
    requires UnmarshalFrom(m, s, t).Ok?
    ensures Zero(UnmarshalFrom(m, s, t).value) == Zero(m)
    ensures forall num :: Expected(UnmarshalFrom(m, s, t).value, num) == Expected(m, num)
    decreases |s|
  {
    if s != [] {
      var (m', rest) := DecodeField(m, s, t).value;
      SameType(m', rest, t);
    }
  }
}
