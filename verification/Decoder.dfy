/** Decoding the stored types: known fields are assigned, unknown ones skipped. */
module Decoder {
  import opened Common
  import opened Bits
  import opened Varint
  import opened Wire
  import opened Codec

  /** The wire type a message expects for a field number; None for an unknown field. */
  function Expected(m: Message, num: int): Option<nat> {
    match m
    case Params(_, _, _, _, _) =>
      if num == 1 || num == 4 || num == 5 then Some(0) else if num == 2 || num == 3 then Some(2) else None
    case AttestationBitmap(_, _, _, _, _) =>
      if num == 1 || num == 3 || num == 4 || num == 5 then Some(0) else if num == 2 then Some(2) else None
    case ValidatorIndex(_, _, _) =>
      if num == 1 then Some(2) else if num == 2 || num == 3 then Some(0) else None
  }

  /** How many bits of a varint the field keeps while it is assembled. */
  function Width(m: Message, num: int): nat {
    if (m.Params? && num == 5) || (m.ValidatorIndex? && num == 2) then 32 else 64
  }

  function SetVarint(m: Message, num: int, v: uint64): Message {
    match m
    case Params(_, _, _, _, _) =>
      if num == 1 then m.(epochLength := v)
      else if num == 4 then m.(pruneAfter := v)
      else if num == 5 then m.(signMode := ToInt32(Uint32(v)))
      else m
    case AttestationBitmap(_, _, _, _, _) =>
      if num == 1 then m.(height := ToInt64(v))
      else if num == 3 then m.(votedPower := v)
      else if num == 4 then m.(totalPower := v)
      else if num == 5 then m.(softConfirmed := v != 0)
      else m
    case ValidatorIndex(_, _, _) =>
      if num == 2 then m.(index := Uint32(v))
      else if num == 3 then m.(power := v)
      else m
  }

  function SetBytes(m: Message, num: int, data: bytes): Message {
    match m
    case Params(_, _, _, _, _) =>
      if num == 2 then m.(quorumFraction := data)
      else if num == 3 then m.(minParticipation := data)
      else m
    case AttestationBitmap(_, _, _, _, _) =>
      if num == 2 then m.(bitmap := Some(data)) else m
    case ValidatorIndex(_, _, _) =>
      if num == 1 then m.(address := data) else m
  }

  /** A varint leaves every other field alone; its own takes the value modulo its width, a bool whether it is zero. */
  lemma VarintMeaning(m: Message, num: int, v: uint64)
    ensures var r := SetVarint(m, num, v);
            match m
            case Params(_, _, _, _, _) =>
              && r == (if num == 1 then m.(epochLength := v) else if num == 4 then m.(pruneAfter := v)
                       else if num == 5 then m.(signMode := r.signMode) else m)
              && (num == 5 ==> (v - r.signMode) % 0x1_0000_0000 == 0)
            case AttestationBitmap(_, _, _, _, _) =>
              && r == (if num == 1 then m.(height := r.height) else if num == 3 then m.(votedPower := v)
                       else if num == 4 then m.(totalPower := v)
                       else if num == 5 then m.(softConfirmed := r.softConfirmed) else m)
              && (num == 1 ==> (v - r.height) % 0x1_0000_0000_0000_0000 == 0)
              && (num == 5 ==> (r.softConfirmed <==> v != 0))
            case ValidatorIndex(_, _, _) =>
              && r == (if num == 2 then m.(index := r.index) else if num == 3 then m.(power := v) else m)
              && (num == 2 ==> (v - r.index) % 0x1_0000_0000 == 0)
  {
  }

  /** The field number of a tag, cut to an int32. */
  function FieldNum(wire: uint64): int32 {
    ToInt32(Uint32(wire / 8))
  }

  /** A length-delimited payload at the head of s, the rest of `total` bytes: its data, and what is left. */
  function Delimited(s: seq<byte>, total: nat): (r: Decoded<(bytes, seq<byte>)>)
    ensures r.Ok? ==> |r.value.1| < |s|
  {
    match Decode(s)
    case Err(e) => Err(e)
    case Ok((v, tail)) =>
      if ToInt64(v) < 0 then Err(InvalidLength)
      else if v > |tail| then Err(if total - |tail| + v > MAX_INT64 then InvalidLength else UnexpectedEOF)
      else Ok((tail[..v], tail[v..]))
  }

  /** The field behind a tag: the message with it assigned, and what is left. */
  function Assign(m: Message, num: int, wt: nat, s: seq<byte>, total: nat): (r: Decoded<(Message, seq<byte>)>)
    ensures r.Ok? ==> |r.value.1| < |s|
  {
    if Expected(m, num) != Some(wt) then Err(WrongWireType)
    else if wt == 0 then
      match Decode(s)
      case Err(e) => Err(e)
      case Ok((v, rest)) => Ok((SetVarint(m, num, v), rest))
    else
      match Delimited(s, total)
      case Err(e) => Err(e)
      case Ok((data, rest)) => Ok((SetBytes(m, num, data), rest))
  }

  /** Skipping counts from the start of s, so overflow is checked again from the start of the input. */
  function SkipUnknown(s: seq<byte>, total: nat): (r: Decoded<seq<byte>>)
    ensures r.Ok? ==> |r.value| < |s|
  {
    match SkipFrom(s, |s|, 0)
    case Err(e) => Err(e)
    case Ok(place) => RestAt(place, total)
  }

  function RestAt(place: Place, total: nat): Decoded<seq<byte>> {
    if Wrapped(place, total) then Err(InvalidLength)
    else if place.Beyond? then Err(UnexpectedEOF)
    else Ok(place.rest)
  }

  /** One field at the head of s: the message after it, and what is left. Every field advances. */
  function DecodeField(m: Message, s: seq<byte>, total: nat): (r: Decoded<(Message, seq<byte>)>)
    ensures r.Ok? ==> |r.value.1| < |s|
  {
    match Decode(s)
    case Err(e) => Err(e)
    case Ok((wire, tail)) =>
      var num, wt := FieldNum(wire), wire % 8;
      if wt == 4 then Err(EndGroup)
      else if num <= 0 then Err(IllegalTag)
      else if Expected(m, num) == None then
        match SkipUnknown(s, total)
        case Err(e) => Err(e)
        case Ok(rest) => Ok((m, rest))
      else Assign(m, num, wt, tail, total)
  }

  /** The rest s of an input of `total` bytes: decoding ends with s used up or with an error. */
  function UnmarshalFrom(m: Message, s: seq<byte>, total: nat): Decoded<Message>
    decreases |s|
  {
    if s == [] then Ok(m)
    else
      match DecodeField(m, s, total)
      case Err(e) => Err(e)
      case Ok((m', rest)) => UnmarshalFrom(m', rest, total)
  }

  /** When the decoder itself turns a field away. */
  lemma FieldRejections(m: Message, s: seq<byte>, total: nat)
    ensures DecodeField(m, s, total) == Err(EndGroup) <==> Decode(s).Ok? && Decode(s).value.0 % 8 == 4
    ensures DecodeField(m, s, total) == Err(IllegalTag) <==>
              Decode(s).Ok? && Decode(s).value.0 % 8 != 4 && FieldNum(Decode(s).value.0) <= 0
    ensures DecodeField(m, s, total) == Err(WrongWireType) <==>
              && Decode(s).Ok? && Decode(s).value.0 % 8 != 4 && FieldNum(Decode(s).value.0) > 0
              && Expected(m, FieldNum(Decode(s).value.0)).Some?
              && Expected(m, FieldNum(Decode(s).value.0)).value != Decode(s).value.0 % 8
  {
    DecodeErrors(s);
    if Decode(s).Ok? {
      var (wire, tail) := Decode(s).value;
      UnknownErrors(s, total);
      if Expected(m, FieldNum(wire)) == Some(wire % 8) {
        AssignErrors(m, FieldNum(wire), wire % 8, tail, total);
      }
    }
  }

  lemma UnknownErrors(s: seq<byte>, total: nat)
    ensures SkipUnknown(s, total).Err? ==> Skipping(SkipUnknown(s, total).error)
  {
    SkipErrors(s, |s|, 0);
  }

  lemma AssignErrors(m: Message, num: int, wt: nat, s: seq<byte>, total: nat)
    requires Expected(m, num) == Some(wt)
    ensures Assign(m, num, wt, s, total).Err? ==> Skipping(Assign(m, num, wt, s, total).error)
  {
    DecodeErrors(s);
  }

  lemma DecodeErrors(s: seq<byte>)
    ensures Decode(s).Err? ==> Decode(s).error == IntOverflow || Decode(s).error == UnexpectedEOF
  {
    RawErrors(s, 0);
  }

  /** The errors skipping can end in. */
  predicate Skipping(e: DecodeError) {
    e == IntOverflow || e == UnexpectedEOF || e == InvalidLength || e == UnexpectedEndOfGroup || e == IllegalWireType
  }

  lemma {:induction false} RawErrors(s: seq<byte>, k: nat)
    requires k <= 10
    ensures RawFrom(s, k).Err? ==> RawFrom(s, k).error == IntOverflow || RawFrom(s, k).error == UnexpectedEOF
    decreases 10 - k
  {
    if k < 10 && s != [] && s[0] >= 0x80 { RawErrors(s[1..], k + 1); }
  }

  lemma ItemErrors(s: seq<byte>, total: nat, depth: nat)
    ensures Item(s, total, depth).Err? ==> Skipping(Item(s, total, depth).error)
  {
    DecodeErrors(s);
    if Decode(s).Ok? { DecodeErrors(Decode(s).value.1); }
  }

  lemma {:induction false} SkipErrors(s: seq<byte>, total: nat, depth: nat)
    ensures SkipFrom(s, total, depth).Err? ==> Skipping(SkipFrom(s, total, depth).error)
    decreases |s|
  {
    if s != [] {
      ItemErrors(s, total, depth);
      if Item(s, total, depth).Ok? {
        var (place, depth') := Item(s, total, depth).value;
        if depth' != 0 && place.Within? { SkipErrors(place.rest, total, depth'); }
      }
    }
  }

  // ---------------------------------------------------------------- the decoder

  lemma ModTwice(raw: nat)
    ensures Uint32(Uint64(raw)) == Uint32(raw)
  {
  }

  /** A field that keeps fewer bits while it is assembled ends up the same. */
  lemma NarrowVarint(m: Message, num: int, raw: nat)
    ensures raw % Pow2(Width(m, num)) < TWO_64
    ensures SetVarint(m, num, Uint64(raw)) == SetVarint(m, num, raw % Pow2(Width(m, num)))
  {
    Pow2Values();
    if Width(m, num) == 32 {
      ModTwice(raw);
      var narrow := Uint32(raw);
      assert Uint32(narrow) == narrow;
    }
  }

  method ReadVarintField(m: Message, num: int, dAtA: bytes, start: nat) returns (r: Decoded<(Message, nat)>)
    requires start <= |dAtA| && Expected(m, num) == Some(0)
    ensures Reads(dAtA, r, Assign(m, num, 0, dAtA[start..], |dAtA|))
  {
    ghost var raw := RawFrom(dAtA[start..], 0);
    if raw.Ok? { NarrowVarint(m, num, raw.value.0); }
    var v := DecodeVarint(dAtA, start, Width(m, num));
    if v.Err? { return Err(v.error); }
    return Ok((SetVarint(m, num, v.value.0), v.value.1));
  }

  method ReadBytesField(m: Message, num: int, dAtA: bytes, start: nat) returns (r: Decoded<(Message, nat)>)
    requires start <= |dAtA| && Expected(m, num) == Some(2)
    ensures Reads(dAtA, r, Assign(m, num, 2, dAtA[start..], |dAtA|))
  {
    var length := DecodeUint64(dAtA, start);
    if length.Err? { return Err(length.error); }
    var (v, iNdEx) := length.value;
    if ToInt64(v) < 0 { return Err(InvalidLength); }
    var postIndex := iNdEx + v;
    if postIndex > MAX_INT64 { return Err(InvalidLength); }
    if postIndex > |dAtA| { return Err(UnexpectedEOF); }
    assert dAtA[iNdEx..][..v] == dAtA[iNdEx..postIndex] && dAtA[iNdEx..][v..] == dAtA[postIndex..];
    return Ok((SetBytes(m, num, dAtA[iNdEx..postIndex]), postIndex));
  }

  /** An index as a specified rest has it. */
  predicate ReadsTo(dAtA: seq<byte>, got: Decoded<nat>, spec: Decoded<seq<byte>>) {
    match spec
    case Err(e) => got == Err(e)
    case Ok(rest) => got.Ok? && got.value <= |dAtA| && dAtA[got.value..] == rest
  }

  method CheckIndex(dAtA: bytes, index: nat, ghost place: Place) returns (r: Decoded<nat>)
    requires At(dAtA, index, place)
    ensures ReadsTo(dAtA, r, RestAt(place, |dAtA|))
  {
    if index > MAX_INT64 { return Err(InvalidLength); }
    if index > |dAtA| { return Err(UnexpectedEOF); }
    return Ok(index);
  }

  /** The index behind an unknown field. */
  method ReadUnknown(dAtA: bytes, start: nat) returns (r: Decoded<nat>)
    requires start <= |dAtA|
    ensures ReadsTo(dAtA, r, SkipUnknown(dAtA[start..], |dAtA|))
  {
    var sub := dAtA[start..];
    var skippy := Skip(sub);
    if skippy.Err? { return Err(skippy.error); }
    var index := start + skippy.value;
    ghost var place := SkipFrom(sub, |sub|, 0).value;
    ShiftAt(dAtA, start, skippy.value, index, place);
    r := CheckIndex(dAtA, index, place);
  }

  lemma ShiftAt(dAtA: seq<byte>, start: nat, i: nat, index: nat, place: Place)
    requires start <= |dAtA| && At(dAtA[start..], i, place) && index == start + i
    ensures At(dAtA, index, place)
  {
    if place.Within? { assert dAtA[start..][i..] == dAtA[index..]; }
  }

  method ReadField(m: Message, dAtA: bytes, start: nat) returns (r: Decoded<(Message, nat)>)
    requires start <= |dAtA|
    ensures Reads(dAtA, r, DecodeField(m, dAtA[start..], |dAtA|))
  {
    var tag := DecodeUint64(dAtA, start);
    if tag.Err? { return Err(tag.error); }
    var (wire, iNdEx) := tag.value;
    var num, wt := FieldNum(wire), wire % 8;
    if wt == 4 { return Err(EndGroup); }
    if num <= 0 { return Err(IllegalTag); }
    if Expected(m, num) == None {
      var index := ReadUnknown(dAtA, start);
      if index.Err? { return Err(index.error); }
      return Ok((m, index.value));
    }
    if Expected(m, num) != Some(wt) { return Err(WrongWireType); }
    if wt == 0 {
      r := ReadVarintField(m, num, dAtA, iNdEx);
    } else {
      r := ReadBytesField(m, num, dAtA, iNdEx);
    }
  }

  method Unmarshal(m0: Message, dAtA: bytes) returns (r: Decoded<Message>)
    ensures r == UnmarshalFrom(m0, dAtA, |dAtA|)
  {
    var m, iNdEx: nat := m0, 0;
    assert dAtA[0..] == dAtA;
    while iNdEx < |dAtA|
      invariant iNdEx <= |dAtA|
      invariant UnmarshalFrom(m, dAtA[iNdEx..], |dAtA|) == UnmarshalFrom(m0, dAtA, |dAtA|)
      decreases |dAtA| - iNdEx
    {
      var field := ReadField(m, dAtA, iNdEx);
      if field.Err? { return Err(field.error); }
      m, iNdEx := field.value.0, field.value.1;
    }
    return Ok(m);
  }
}
