/** Skipping a field nobody knows: its extent in the input, nested groups included. */
module Wire {
  import opened Common
  import opened Bits
  import opened Varint

  const MAX_INT64: int := TWO_63 - 1

  /** A Go byte slice or string. */
  type bytes = s: seq<byte> | |s| <= MAX_INT64

  type pos = x: int | x > 0 witness 1

  /** Where an index points: at a rest of the input, or a number of bytes beyond its end. */
  datatype Place = Within(rest: seq<byte>) | Beyond(over: pos)

  function Advance(s: seq<byte>, n: nat): Place {
    if n <= |s| then Within(s[n..]) else Beyond(n - |s|)
  }

  /** What follows a tag of wire type `wt`: the place behind it, and the group depth there. */
  function Payload(s: seq<byte>, wt: nat, depth: nat): (r: Decoded<(Place, nat)>)
    ensures r.Ok? && r.value.0.Within? ==> |r.value.0.rest| <= |s|
  {
    match wt
    case 0 =>
      (match Decode(s)
       case Err(e) => Err(e)
       case Ok((_, rest)) => Ok((Within(rest), depth)))
    case 1 => Ok((Advance(s, 8), depth))
    case 2 =>
      (match Decode(s)
       case Err(e) => Err(e)
       case Ok((v, rest)) => if ToInt64(v) < 0 then Err(InvalidLength) else Ok((Advance(rest, v), depth)))
    case 3 => Ok((Within(s), depth + 1))
    case 4 => if depth == 0 then Err(UnexpectedEndOfGroup) else Ok((Within(s), depth - 1))
    case 5 => Ok((Advance(s, 4), depth))
    case _ => Err(IllegalWireType)
  }

  /** An index over the int64 range has wrapped around to a negative one. */
  predicate Wrapped(place: Place, total: nat) {
    place.Beyond? && total + place.over > MAX_INT64
  }

  /** One round of the skipping loop at the head of s, the rest of an input of `total` bytes. */
  function Item(s: seq<byte>, total: nat, depth: nat): (r: Decoded<(Place, nat)>)
    ensures r.Ok? && r.value.0.Within? ==> |r.value.0.rest| < |s|
  {
    match Decode(s)
    case Err(e) => Err(e)
    case Ok((wire, tail)) =>
      match Payload(tail, wire % 8, depth)
      case Err(e) => Err(e)
      case Ok((place, depth')) => if Wrapped(place, total) then Err(InvalidLength) else Ok((place, depth'))
  }

  /** The place behind the field at the head of s, inside `depth` open groups. */
  function SkipFrom(s: seq<byte>, total: nat, depth: nat): (r: Decoded<Place>)
    ensures r.Ok? && r.value.Within? ==> |r.value.rest| < |s|
    decreases |s|
  {
    if s == [] then Err(UnexpectedEOF)
    else
      match Item(s, total, depth)
      case Err(e) => Err(e)
      case Ok((place, depth')) =>
        if depth' == 0 then Ok(place)
        else if place.Beyond? then Err(UnexpectedEOF)
        else SkipFrom(place.rest, total, depth')
  }

  // ---------------------------------------------------------------- the skipping loop

  /** An index is at a place of the input. */
  predicate At(dAtA: seq<byte>, index: nat, place: Place) {
    match place
    case Within(rest) => index <= |dAtA| && dAtA[index..] == rest
    case Beyond(over) => index == |dAtA| + over
  }

  /** An index and depth as the specification has them. */
  predicate Arrives(dAtA: seq<byte>, got: Decoded<(nat, nat)>, spec: Decoded<(Place, nat)>) {
    match spec
    case Err(e) => got == Err(e)
    case Ok((place, depth)) => got.Ok? && got.value.1 == depth && At(dAtA, got.value.0, place)
  }

  predicate Located(dAtA: seq<byte>, got: Decoded<nat>, spec: Decoded<Place>) {
    match spec
    case Err(e) => got == Err(e)
    case Ok(place) => got.Ok? && At(dAtA, got.value, place)
  }

  lemma AdvanceAt(dAtA: seq<byte>, index: nat, n: nat)
    requires index <= |dAtA|
    ensures At(dAtA, index + n, Advance(dAtA[index..], n))
  {
    if index + n <= |dAtA| { assert dAtA[index..][n..] == dAtA[index + n..]; }
  }

  method SkipPayload(dAtA: bytes, start: nat, wt: nat, depth: nat) returns (r: Decoded<(nat, nat)>)
    requires start <= |dAtA|
    ensures Arrives(dAtA, r, Payload(dAtA[start..], wt, depth))
  {
    match wt {
      case 0 =>
        var v := DecodeUint64(dAtA, start);
        if v.Err? { return Err(v.error); }
        return Ok((v.value.1, depth));
      case 1 =>
        AdvanceAt(dAtA, start, 8);
        return Ok((start + 8, depth));
      case 2 =>
        var v := DecodeUint64(dAtA, start);
        if v.Err? { return Err(v.error); }
        if ToInt64(v.value.0) < 0 { return Err(InvalidLength); }
        AdvanceAt(dAtA, v.value.1, v.value.0);
        return Ok((v.value.1 + v.value.0, depth));
      case 3 => return Ok((start, depth + 1));
      case 4 =>
        if depth == 0 { return Err(UnexpectedEndOfGroup); }
        return Ok((start, depth - 1));
      case 5 =>
        AdvanceAt(dAtA, start, 4);
        return Ok((start + 4, depth));
      case _ => return Err(IllegalWireType);
    }
  }

  method SkipItem(dAtA: bytes, start: nat, depth: nat) returns (r: Decoded<(nat, nat)>)
    requires start <= |dAtA|
    ensures Arrives(dAtA, r, Item(dAtA[start..], |dAtA|, depth))
  {
    var tag := DecodeUint64(dAtA, start);
    if tag.Err? { return Err(tag.error); }
    var (wire, next) := tag.value;
    r := SkipPayload(dAtA, next, wire % 8, depth);
    if r.Err? { return; }
    if r.value.0 > MAX_INT64 { return Err(InvalidLength); }
  }

  /** The index behind the first field of dAtA; it may lie beyond the end. */
  method Skip(dAtA: bytes) returns (r: Decoded<nat>)
    ensures Located(dAtA, r, SkipFrom(dAtA, |dAtA|, 0))
  {
    var iNdEx: nat, depth: nat := 0, 0;
    assert dAtA[0..] == dAtA;
    while iNdEx < |dAtA|
      invariant iNdEx <= |dAtA|
      invariant SkipFrom(dAtA[iNdEx..], |dAtA|, depth) == SkipFrom(dAtA, |dAtA|, 0)
      decreases |dAtA| - iNdEx
    {
      var item := SkipItem(dAtA, iNdEx, depth);
      if item.Err? { return Err(item.error); }
      var (index, depth') := item.value;
      if depth' == 0 { return Ok(index); }
      if index > |dAtA| { return Err(UnexpectedEOF); }
      iNdEx, depth := index, depth';
    }
    return Err(UnexpectedEOF);
  }

  // ---------------------------------------------------------------- well-formed unknown fields

  /** A field as bytes: tags and lengths are varints, not necessarily the shortest ones. */
  datatype WireField =
    | UVarint(tag: seq<byte>, value: seq<byte>)
    | UFixed64(tag: seq<byte>, data: seq<byte>)
    | UBytes(tag: seq<byte>, length: seq<byte>, data: seq<byte>)
    | UGroup(tag: seq<byte>, fields: seq<WireField>, endTag: seq<byte>)
    | UFixed32(tag: seq<byte>, data: seq<byte>)

  predicate IsVarint(s: seq<byte>) {
    RawFrom(s, 0).Ok? && RawFrom(s, 0).value.1 == []
  }

  predicate IsTag(s: seq<byte>, wt: nat) {
    IsVarint(s) && Decode(s).value.0 % 8 == wt
  }

  predicate WellFormed(u: WireField)
    decreases u, 1
  {
    match u
    case UVarint(tag, value) => IsTag(tag, 0) && IsVarint(value)
    case UFixed64(tag, data) => IsTag(tag, 1) && |data| == 8
    case UBytes(tag, length, data) => IsTag(tag, 2) && IsVarint(length) && Decode(length).value.0 == |data|
    case UGroup(tag, fields, endTag) => IsTag(tag, 3) && AllWellFormed(fields) && IsTag(endTag, 4)
    case UFixed32(tag, data) => IsTag(tag, 5) && |data| == 4
  }

  predicate AllWellFormed(us: seq<WireField>)
    decreases us, 0
  {
    us == [] || (WellFormed(us[0]) && AllWellFormed(us[1..]))
  }

  function Bytes(u: WireField): seq<byte>
    decreases u, 2
  {
    u.tag + Body(u)
  }

  /** What follows the tag. */
  function Body(u: WireField): seq<byte>
    decreases u, 1
  {
    match u
    case UVarint(_, value) => value
    case UFixed64(_, data) => data
    case UBytes(_, length, data) => length + data
    case UGroup(_, fields, endTag) => AllBytes(fields) + endTag
    case UFixed32(_, data) => data
  }

  function AllBytes(us: seq<WireField>): seq<byte>
    decreases us, 0
  {
    if us == [] then [] else Bytes(us[0]) + AllBytes(us[1..])
  }

  /** A varint at the head of a longer input. */
  lemma HeadVarint(w: seq<byte>, rest: seq<byte>)
    requires IsVarint(w)
    ensures |w| > 0 && Decode(w + rest) == Ok((Decode(w).value.0, rest))
  {
    RawPrefix(w, 0, rest);
    assert [] + rest == rest;
  }

  /** Skipping the field at the head of s arrives at `rest`. */
  predicate SkipsTo(s: seq<byte>, rest: seq<byte>, total: nat, depth: nat) {
    SkipFrom(s, total, depth) == if depth == 0 then Ok(Within(rest)) else SkipFrom(rest, total, depth)
  }

  lemma ItemAt(s: seq<byte>, tag: seq<byte>, tail: seq<byte>, rest: seq<byte>, wt: nat, total: nat,
               depth: nat, depth': nat)
    requires s == tag + tail && IsTag(tag, wt) && Payload(tail, wt, depth) == Ok((Within(rest), depth'))
    ensures |tag| > 0
    ensures SkipFrom(s, total, depth) == if depth' == 0 then Ok(Within(rest)) else SkipFrom(rest, total, depth')
  {
    HeadVarint(tag, tail);
    assert Item(s, total, depth) == Ok((Within(rest), depth'));
  }

  lemma SkipLeaf(tag: seq<byte>, body: seq<byte>, rest: seq<byte>, s: seq<byte>, wt: nat, total: nat, depth: nat)
    requires s == tag + body + rest
    requires IsTag(tag, wt) && Payload(body + rest, wt, depth) == Ok((Within(rest), depth))
    ensures |tag| > 0 && SkipsTo(s, rest, total, depth)
  {
    assert s == tag + (body + rest);
    ItemAt(s, tag, body + rest, rest, wt, total, depth, depth);
  }

  lemma FixedPayload(body: seq<byte>, rest: seq<byte>)
    ensures Advance(body + rest, |body|) == Within(rest)
  {
    assert (body + rest)[|body|..] == rest;
  }

  lemma GroupPayload(s: seq<byte>, depth: nat, depth': nat)
    requires depth' == depth + 1
    ensures Payload(s, 3, depth) == Ok((Within(s), depth'))
    ensures Payload(s, 4, depth') == Ok((Within(s), depth))
  {
  }

  lemma PayloadAt(s: seq<byte>, tail: seq<byte>, v: uint64, depth: nat)
    requires Decode(s) == Ok((v, tail)) && v <= MAX_INT64
    ensures Payload(s, 2, depth) == Ok((Advance(tail, v), depth))
  {
  }

  lemma LengthPayload(length: seq<byte>, data: seq<byte>, rest: seq<byte>, s: seq<byte>, depth: nat)
    requires IsVarint(length) && Decode(length).value.0 == |data| <= MAX_INT64
    requires s == length + data + rest
    ensures Payload(s, 2, depth) == Ok((Within(rest), depth))
  {
    var tail := data + rest;
    assert s == length + tail;
    HeadVarint(length, tail);
    PayloadAt(s, tail, |data|, depth);
    FixedPayload(data, rest);
  }

  lemma SkipLeafField(u: WireField, rest: seq<byte>, s: seq<byte>, total: nat, depth: nat)
    requires WellFormed(u) && !u.UGroup? && s == Bytes(u) + rest && |s| <= MAX_INT64
    ensures 0 < |Bytes(u)| && SkipsTo(s, rest, total, depth)
  {
    match u
    case UVarint(tag, value) =>
      HeadVarint(value, rest);
      SkipLeaf(tag, value, rest, s, 0, total, depth);
    case UFixed64(tag, data) =>
      FixedPayload(data, rest);
      SkipLeaf(tag, data, rest, s, 1, total, depth);
    case UBytes(tag, length, data) =>
      LengthPayload(length, data, rest, length + data + rest, depth);
      SkipLeaf(tag, length + data, rest, s, 2, total, depth);
    case UFixed32(tag, data) =>
      FixedPayload(data, rest);
      SkipLeaf(tag, data, rest, s, 5, total, depth);
  }

  /** Skipping a well-formed field ends right behind it, whatever follows and however deep it sits. */
  lemma {:induction false} SkipField(u: WireField, rest: seq<byte>, s: seq<byte>, total: nat, depth: nat)
    requires WellFormed(u) && s == Bytes(u) + rest && |s| <= MAX_INT64
    ensures 0 < |Bytes(u)| && SkipsTo(s, rest, total, depth)
    decreases u, 1
  {
    if u.UGroup? {
      var UGroup(tag, fields, endTag) := u;
      assert s == tag + (AllBytes(fields) + (endTag + rest));
      SkipGroup(tag, fields, endTag, rest, s, total, depth, depth + 1);
    } else {
      SkipLeafField(u, rest, s, total, depth);
    }
  }

  lemma {:induction false} SkipGroup(tag: seq<byte>, fields: seq<WireField>, endTag: seq<byte>, rest: seq<byte>,
                                     s: seq<byte>, total: nat, depth: nat, depth': nat)
    requires IsTag(tag, 3) && AllWellFormed(fields) && IsTag(endTag, 4) && depth' == depth + 1
    requires s == tag + (AllBytes(fields) + (endTag + rest)) && |s| <= MAX_INT64
    ensures |tag| > 0 && SkipsTo(s, rest, total, depth)
    decreases fields, 1
  {
    var end := endTag + rest;
    var inner := AllBytes(fields) + end;
    GroupPayload(inner, depth, depth');
    GroupPayload(rest, depth, depth');
    ItemAt(s, tag, inner, inner, 3, total, depth, depth');
    SkipFields(fields, end, inner, total, depth');
    ItemAt(end, endTag, rest, rest, 4, total, depth', depth);
  }

  /** Inside a group, well-formed fields are passed one by one. */
  lemma {:induction false} SkipFields(us: seq<WireField>, rest: seq<byte>, s: seq<byte>, total: nat, depth: nat)
    requires AllWellFormed(us) && depth > 0 && s == AllBytes(us) + rest && |s| <= MAX_INT64
    ensures SkipFrom(s, total, depth) == SkipFrom(rest, total, depth)
    decreases us, 0
  {
    if us == [] {
      assert s == rest;
    } else {
      var behind := AllBytes(us[1..]) + rest;
      assert s == Bytes(us[0]) + behind;
      SkipField(us[0], behind, s, total, depth);
      SkipFields(us[1..], rest, behind, total, depth);
    }
  }
}
