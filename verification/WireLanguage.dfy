/** Exactly which inputs the decoder accepts, and what each of them means. */
module WireLanguage {
  import opened Common
  import opened Bits
  import opened Varint
  import opened Wire
  import opened Codec
  import opened Decoder

  // ---------------------------------------------------------------- a varint at the head

  lemma RawLast(b: byte, s: seq<byte>, k: nat)
    requires k < 10 && b < 0x80
    ensures RawFrom([b] + s, k) == Ok((b, s))
  {
    assert ([b] + s)[1..] == s;
  }

  lemma RawMore(b: byte, s: seq<byte>, k: nat, k': nat)
    requires k < 10 && b >= 0x80 && k' == k + 1
    ensures RawFrom([b] + s, k).Ok? <==> RawFrom(s, k').Ok?
    ensures RawFrom(s, k').Ok? ==>
              RawFrom([b] + s, k) == Ok((b - 0x80 + 0x80 * RawFrom(s, k').value.0, RawFrom(s, k').value.1))
  {
    assert ([b] + s)[1..] == s;
  }

  lemma Associate(a: seq<byte>, b: seq<byte>, c: seq<byte>)
    ensures a + (b + c) == a + b + c
  {
  }

  /** What is read as a varint is one of its own. */
  lemma {:induction false} RawCut(s: seq<byte>, k: nat) returns (w: seq<byte>)
    requires k <= 10 && RawFrom(s, k).Ok?
    ensures |w| > 0 && s == w + RawFrom(s, k).value.1
    ensures RawFrom(w, k) == Ok((RawFrom(s, k).value.0, []))
    decreases 10 - k
  {
    var b, tail := s[0], s[1..];
    assert s == [b] + tail;
    if b < 0x80 {
      RawLast(b, tail, k);
      RawLast(b, [], k);
      w := [b];
      assert [b] + [] == w;
    } else {
      var k' := k + 1;
      RawMore(b, tail, k, k');
      var more := RawCut(tail, k');
      RawMore(b, more, k, k');
      w := [b] + more;
      Associate([b], more, RawFrom(tail, k').value.1);
    }
  }

  lemma HeadCut(s: seq<byte>) returns (w: seq<byte>)
    requires Decode(s).Ok?
    ensures IsVarint(w) && |w| > 0 && s == w + Decode(s).value.1
    ensures Decode(w).value.0 == Decode(s).value.0
  {
    w := RawCut(s, 0);
  }

  // ---------------------------------------------------------------- skipping, read backwards

  lemma LengthCut(tail: seq<byte>, rest: seq<byte>) returns (length: seq<byte>, data: seq<byte>)
    requires Decode(tail).Ok? && Advance(Decode(tail).value.1, Decode(tail).value.0) == Within(rest)
    ensures IsVarint(length) && Decode(length).value.0 == |data| && tail == length + (data + rest)
    ensures Decode(tail).value == (|data|, data + rest)
  {
    length := HeadCut(tail);
    var (v, behind) := Decode(tail).value;
    data := behind[..v];
    assert behind == data + rest;
  }

  lemma FixedCut(tail: seq<byte>, n: nat, rest: seq<byte>) returns (data: seq<byte>)
    requires Advance(tail, n) == Within(rest)
    ensures |data| == n && tail == data + rest
  {
    data := tail[..n];
  }

  lemma LeafPayload(tag: seq<byte>, wt: nat, tail: seq<byte>, depth: nat, rest: seq<byte>) returns (u: WireField)
    requires IsTag(tag, wt) && wt != 3 && wt != 4
    requires Payload(tail, wt, depth) == Ok((Within(rest), depth))
    ensures WellFormed(u) && !u.UGroup? && u.tag == tag && Bytes(u) + rest == tag + tail
  {
    match wt
    case 0 =>
      var value := HeadCut(tail);
      u := UVarint(tag, value);
    case 1 =>
      var data := FixedCut(tail, 8, rest);
      u := UFixed64(tag, data);
    case 2 =>
      var length, data := LengthCut(tail, rest);
      u := UBytes(tag, length, data);
      Regroup(tag, length, data, rest);
    case 5 =>
      var data := FixedCut(tail, 4, rest);
      u := UFixed32(tag, data);
    case _ =>
  }

  lemma Regroup(a: seq<byte>, b: seq<byte>, c: seq<byte>, d: seq<byte>)
    ensures a + (b + c) + d == a + (b + (c + d))
  {
  }

  /** One round of the skipping loop that stays inside the input: its tag, and what lies behind the item. */
  lemma ItemCut(s: seq<byte>, total: nat, depth: nat) returns (tag: seq<byte>, wt: nat, tail: seq<byte>)
    requires Item(s, total, depth).Ok? && Item(s, total, depth).value.0.Within?
    ensures IsTag(tag, wt) && |tag| > 0 && s == tag + tail
    ensures Decode(tag).value.0 == Decode(s).value.0
    ensures Payload(tail, wt, depth) == Item(s, total, depth)
    ensures var (place, depth') := Item(s, total, depth).value;
            if wt == 3 then place.rest == tail && depth' == depth + 1
            else if wt == 4 then place.rest == tail && depth' + 1 == depth
            else depth' == depth
  {
    tag := HeadCut(s);
    tail := Decode(s).value.1;
    wt := Decode(s).value.0 % 8;
    PayloadDepth(tail, wt, depth);
  }

  lemma PayloadDepth(tail: seq<byte>, wt: nat, depth: nat)
    requires Payload(tail, wt, depth).Ok? && Payload(tail, wt, depth).value.0.Within?
    ensures var (place, depth') := Payload(tail, wt, depth).value;
            if wt == 3 then place.rest == tail && depth' == depth + 1
            else if wt == 4 then place.rest == tail && depth' + 1 == depth
            else depth' == depth
  {
  }

  /** Skipping goes on from s, inside `depth` open groups, until it arrives at `rest`. */
  predicate GoesOn(s: seq<byte>, total: nat, depth: nat, rest: seq<byte>) {
    if depth == 0 then s == rest else SkipFrom(s, total, depth) == Ok(Within(rest))
  }

  lemma SkipWithin(s: seq<byte>, total: nat, depth: nat, rest: seq<byte>)
    requires SkipFrom(s, total, depth) == Ok(Within(rest))
    ensures s != [] && Item(s, total, depth).Ok? && Item(s, total, depth).value.0.Within?
    ensures var (place, depth') := Item(s, total, depth).value; GoesOn(place.rest, total, depth', rest)
  {
  }

  /** Inside a group, what is skipped are well-formed fields up to an end tag. */
  lemma {:induction false} GroupCut(s: seq<byte>, total: nat, depth: nat, below: nat, rest: seq<byte>)
    returns (fields: seq<WireField>, endTag: seq<byte>, behind: seq<byte>)
    requires depth == below + 1 && GoesOn(s, total, depth, rest)
    ensures AllWellFormed(fields) && IsTag(endTag, 4) && s == AllBytes(fields) + (endTag + behind)
    ensures |behind| < |s| && GoesOn(behind, total, below, rest)
    decreases |s|, 1
  {
    SkipWithin(s, total, depth, rest);
    var (place, depth') := Item(s, total, depth).value;
    var tag, wt, tail := ItemCut(s, total, depth);
    if wt == 4 {
      assert depth' == below;
      fields, endTag, behind := [], tag, tail;
      assert [] + (tag + tail) == tag + tail;
    } else {
      var u, next := OpenCut(s, total, depth, depth', rest, tag, wt, tail, place.rest);
      var more;
      more, endTag, behind := GroupCut(next, total, depth, below, rest);
      fields := [u] + more;
      Prepend(u, more, endTag + behind, next, s);
    }
  }

  /** An item that ends no group is one field, nested groups included. */
  lemma {:induction false} OpenCut(s: seq<byte>, total: nat, depth: nat, depth': nat, rest: seq<byte>,
                                   tag: seq<byte>, wt: nat, tail: seq<byte>, at: seq<byte>)
    returns (u: WireField, next: seq<byte>)
    requires IsTag(tag, wt) && |tag| > 0 && s == tag + tail && wt != 4
    requires Payload(tail, wt, depth) == Ok((Within(at), depth'))
    requires if wt == 3 then at == tail && depth' == depth + 1 else depth' == depth
    requires GoesOn(at, total, depth', rest)
    ensures WellFormed(u) && u.tag == tag && s == Bytes(u) + next && |next| < |s|
    ensures GoesOn(next, total, depth, rest)
    decreases |s|, 0
  {
    if wt == 3 {
      var inner, innerEnd, behind := GroupCut(tail, total, depth', depth, rest);
      u, next := UGroup(tag, inner, innerEnd), behind;
      Regroup(tag, AllBytes(inner), innerEnd, behind);
    } else {
      u := LeafPayload(tag, wt, tail, depth, at);
      next := at;
    }
  }

  lemma Prepend(u: WireField, more: seq<WireField>, rest: seq<byte>, next: seq<byte>, s: seq<byte>)
    requires WellFormed(u) && AllWellFormed(more) && next == AllBytes(more) + rest && s == Bytes(u) + next
    ensures AllWellFormed([u] + more) && s == AllBytes([u] + more) + rest
  {
    assert ([u] + more)[1..] == more;
  }

  /** Whatever the skipping loop accepts inside the input is one well-formed field. */
  lemma SkipCut(s: seq<byte>, total: nat, rest: seq<byte>) returns (u: WireField)
    requires SkipFrom(s, total, 0) == Ok(Within(rest))
    ensures WellFormed(u) && s == Bytes(u) + rest && Decode(u.tag).value.0 == Decode(s).value.0
  {
    SkipWithin(s, total, 0, rest);
    var (place, depth') := Item(s, total, 0).value;
    var tag, wt, tail := ItemCut(s, total, 0);
    var next;
    u, next := OpenCut(s, total, 0, depth', rest, tag, wt, tail, place.rest);
  }

  /** The loop skips to `rest` exactly when the input is one well-formed field before it. */
  lemma SkipExactly(s: seq<byte>, rest: seq<byte>)
    requires |s| <= MAX_INT64
    ensures SkipFrom(s, |s|, 0) == Ok(Within(rest)) <==> exists u :: WellFormed(u) && s == Bytes(u) + rest
  {
    if SkipFrom(s, |s|, 0) == Ok(Within(rest)) {
      var u := SkipCut(s, |s|, rest);
      assert WellFormed(u) && s == Bytes(u) + rest;
    }
    forall u | WellFormed(u) && s == Bytes(u) + rest ensures SkipFrom(s, |s|, 0) == Ok(Within(rest)) {
      SkipField(u, rest, s, |s|, 0);
    }
  }

  // ---------------------------------------------------------------- the language of a message

  function Number(u: WireField): int {
    if IsVarint(u.tag) then FieldNum(Decode(u.tag).value.0) else 0
  }

  /** A well-formed field that a message takes: of the wire type it expects, or with a number it does not know. */
  predicate Fits(m: Message, u: WireField) {
    && WellFormed(u) && Number(u) > 0
    && match Expected(m, Number(u))
       case None => true
       case Some(wt) => if wt == 0 then u.UVarint? else u.UBytes? && ToInt64(|u.data|) >= 0
  }

  predicate AllFit(m: Message, us: seq<WireField>) {
    forall i :: 0 <= i < |us| ==> Fits(m, us[i])
  }

  /** What such a field does to the message. */
  function Put(m: Message, u: WireField): Message
    requires Fits(m, u)
  {
    match Expected(m, Number(u))
    case None => m
    case Some(wt) =>
      if wt == 0 then SetVarint(m, Number(u), Decode(u.value).value.0) else SetBytes(m, Number(u), u.data)
  }

  predicate Known(m: Message, u: WireField)
    requires Fits(m, u)
  {
    Expected(m, Number(u)).Some?
  }

  lemma TagAt(u: WireField, rest: seq<byte>, s: seq<byte>) returns (tail: seq<byte>)
    requires WellFormed(u) && s == Bytes(u) + rest
    ensures Bytes(u) != [] && s == u.tag + tail && tail == Body(u) + rest
    ensures Decode(s) == Ok((Decode(u.tag).value.0, tail))
  {
    tail := Body(u) + rest;
    assert s == u.tag + tail;
    HeadVarint(u.tag, tail);
  }

  lemma TagType(u: WireField)
    requires WellFormed(u)
    ensures var wt := Decode(u.tag).value.0 % 8; wt != 4 && (u.UVarint? ==> wt == 0) && (u.UBytes? ==> wt == 2)
  {
  }

  /** The tag decides how a field is read. */
  lemma Dispatch(m: Message, u: WireField, s: seq<byte>, tail: seq<byte>, total: nat)
    requires Fits(m, u) && Decode(s) == Ok((Decode(u.tag).value.0, tail))
    ensures Known(m, u) ==> DecodeField(m, s, total) == Assign(m, Number(u), Expected(m, Number(u)).value, tail, total)
    ensures !Known(m, u) && SkipUnknown(s, total).Ok? ==>
              DecodeField(m, s, total) == Ok((m, SkipUnknown(s, total).value))
  {
    TagType(u);
  }

  lemma AssignReads(m: Message, u: WireField, tail: seq<byte>, rest: seq<byte>, total: nat)
    requires Fits(m, u) && Known(m, u) && tail == Body(u) + rest
    ensures Assign(m, Number(u), Expected(m, Number(u)).value, tail, total) == Ok((Put(m, u), rest))
  {
    if Expected(m, Number(u)) == Some(0) {
      assert tail == u.value + rest;
      HeadVarint(u.value, rest);
    } else {
      assert tail == u.length + (u.data + rest);
      HeadVarint(u.length, u.data + rest);
      assert (u.data + rest)[..|u.data|] == u.data && (u.data + rest)[|u.data|..] == rest;
    }
  }

  /** A field that fits is read, and does what it means. */
  lemma FieldReads(m: Message, u: WireField, rest: seq<byte>, total: nat)
    requires Fits(m, u) && |Bytes(u) + rest| <= MAX_INT64
    ensures DecodeField(m, Bytes(u) + rest, total) == Ok((Put(m, u), rest)) && Bytes(u) != []
  {
    var s := Bytes(u) + rest;
    var tail := TagAt(u, rest, s);
    Dispatch(m, u, s, tail, total);
    if Known(m, u) {
      AssignReads(m, u, tail, rest, total);
    } else {
      SkipField(u, rest, s, |s|, 0);
    }
  }

  lemma DelimitedCut(tail: seq<byte>, total: nat) returns (length: seq<byte>)
    requires Delimited(tail, total).Ok?
    ensures var (data, rest) := Delimited(tail, total).value;
            && IsVarint(length) && Decode(length).value.0 == |data| && ToInt64(|data|) >= 0
            && tail == length + (data + rest)
  {
    var (v, behind) := Decode(tail).value;
    var data;
    length, data := LengthCut(tail, behind[v..]);
  }

  lemma KnownCut(m: Message, tag: seq<byte>, num: int, wt: nat, tail: seq<byte>, total: nat) returns (u: WireField)
    requires IsTag(tag, wt) && num == FieldNum(Decode(tag).value.0) > 0 && Expected(m, num) == Some(wt)
    requires Assign(m, num, wt, tail, total).Ok?
    ensures u.tag == tag && Fits(m, u)
    ensures var (m', rest) := Assign(m, num, wt, tail, total).value; tag + tail == Bytes(u) + rest && m' == Put(m, u)
  {
    if wt == 0 {
      var value := HeadCut(tail);
      u := UVarint(tag, value);
    } else {
      var length := DelimitedCut(tail, total);
      var (data, rest) := Delimited(tail, total).value;
      u := UBytes(tag, length, data);
      Regroup(tag, length, data, rest);
    }
  }

  /** Whatever is read as a field is one that fits. */
  lemma FieldCut(m: Message, s: seq<byte>, total: nat) returns (u: WireField)
    requires DecodeField(m, s, total).Ok?
    ensures Fits(m, u)
    ensures var (m', rest) := DecodeField(m, s, total).value; s == Bytes(u) + rest && m' == Put(m, u)
  {
    var tag := HeadCut(s);
    var (wire, tail) := Decode(s).value;
    var num, wt := FieldNum(wire), wire % 8;
    if Expected(m, num) == None {
      u := SkipCut(s, |s|, SkipUnknown(s, total).value);
    } else {
      u := KnownCut(m, tag, num, wt, tail, total);
    }
  }

  // ---------------------------------------------------------------- whole inputs

  /** A field leaves the type of the message, so the same fields fit afterwards. */
  lemma PutKeepsType(m: Message, u: WireField, v: WireField)
    requires Fits(m, u)
    ensures Fits(Put(m, u), v) <==> Fits(m, v)
  {
  }

  lemma RestFits(m: Message, us: seq<WireField>)
    requires us != [] && AllFit(m, us)
    ensures AllFit(Put(m, us[0]), us[1..])
  {
    forall i | 0 <= i < |us[1..]| ensures Fits(Put(m, us[0]), us[1..][i]) {
      PutKeepsType(m, us[0], us[i + 1]);
    }
  }

  /** What fields do to the message one after the other. */
  function PutAll(m: Message, us: seq<WireField>): Message
    requires AllFit(m, us)
    decreases |us|
  {
    if us == [] then m
    else
      RestFits(m, us);
      PutAll(Put(m, us[0]), us[1..])
  }

  lemma {:induction false} ReadsAll(m: Message, us: seq<WireField>, total: nat)
    requires AllFit(m, us) && |AllBytes(us)| <= MAX_INT64
    ensures UnmarshalFrom(m, AllBytes(us), total) == Ok(PutAll(m, us))
    decreases |us|
  {
    if us != [] {
      var rest := AllBytes(us[1..]);
      RestFits(m, us);
      FieldReads(m, us[0], rest, total);
      ReadsAll(Put(m, us[0]), us[1..], total);
    }
  }

  lemma {:induction false} InputCut(m: Message, s: seq<byte>, total: nat) returns (us: seq<WireField>)
    requires UnmarshalFrom(m, s, total).Ok?
    ensures AllFit(m, us) && s == AllBytes(us)
    decreases |s|
  {
    if s == [] {
      us := [];
    } else {
      var u := FieldCut(m, s, total);
      var (m', rest) := DecodeField(m, s, total).value;
      var more := InputCut(m', rest, total);
      us := [u] + more;
      assert us[1..] == more;
      forall i | 0 <= i < |us| ensures Fits(m, us[i]) {
        if i > 0 { PutKeepsType(m, u, us[i]); }
      }
    }
  }

  /** Unmarshal accepts exactly the concatenations of fields that fit, and does what they mean in order. */
  lemma AcceptsExactly(m: Message, s: seq<byte>)
    requires |s| <= MAX_INT64
    ensures UnmarshalFrom(m, s, |s|).Ok? <==> exists us :: AllFit(m, us) && s == AllBytes(us)
    ensures forall us :: AllFit(m, us) && s == AllBytes(us) ==> UnmarshalFrom(m, s, |s|) == Ok(PutAll(m, us))
  {
    if UnmarshalFrom(m, s, |s|).Ok? {
      var us := InputCut(m, s, |s|);
      assert AllFit(m, us) && s == AllBytes(us);
    }
    forall us | AllFit(m, us) && s == AllBytes(us) ensures UnmarshalFrom(m, s, |s|) == Ok(PutAll(m, us)) {
      ReadsAll(m, us, |s|);
    }
  }
}
