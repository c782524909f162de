/** Base 128 varints: their bytes, their size, the backwards encoder and the decoder. */
module Varint {
  import opened Common
  import opened Bits

  datatype DecodeError =
    | IntOverflow | UnexpectedEOF | InvalidLength | UnexpectedEndOfGroup
    | EndGroup | IllegalTag | WrongWireType | IllegalWireType

  type Decoded<T> = Result<T, DecodeError>

  /** The bytes of a varint, least significant group first. */
  function VarintBytes(v: nat): (s: seq<byte>)
    ensures |s| > 0
  {
    if v < 0x80 then [v] else [v % 0x80 + 0x80] + VarintBytes(v / 0x80)
  }

  /** The number of bits needed for x. */
  function BitLen(x: nat): nat {
    if x == 0 then 0 else 1 + BitLen(x / 2)
  }

  /** The size sovTypes computes. */
  function Sov(x: uint64): nat {
    (BitLen(Or(x, 1)) + 6) / 7
  }

  lemma BitLenHalf(x: nat)
    requires x > 0
    ensures BitLen(x) == 1 + BitLen(x / 2)
  {
  }

  lemma BitLenGroup(x: nat)
    requires x >= 0x80
    ensures BitLen(x) == 7 + BitLen(x / 0x80)
  {
    BitLenHalf(x);
    BitLenHalf(x / 2);
    BitLenHalf(x / 4);
    BitLenHalf(x / 8);
    BitLenHalf(x / 16);
    BitLenHalf(x / 32);
    BitLenHalf(x / 64);
    assert x / 2 / 2 == x / 4 && x / 4 / 2 == x / 8 && x / 8 / 2 == x / 16;
    assert x / 16 / 2 == x / 32 && x / 32 / 2 == x / 64 && x / 64 / 2 == x / 0x80;
  }

  lemma OrOne(x: nat)
    ensures Or(x, 1) == 2 * (x / 2) + 1
    ensures BitLen(Or(x, 1)) == if x == 0 then 1 else BitLen(x)
  {
    assert Or(x / 2, 0) == x / 2;
    assert (2 * (x / 2) + 1) / 2 == x / 2;
    assert Or(x, 1) == 2 * (x / 2) + 1;
    BitLenHalf(2 * (x / 2) + 1);
    if x > 0 { BitLenHalf(x); }
  }

  lemma {:induction false} BitLenSmall(x: nat)
    requires 0 < x < 0x80
    ensures 1 <= BitLen(x) <= 7
  {
    BitLenBelow(x, 7);
  }

  lemma {:induction false} BitLenBelow(x: nat, k: nat)
    requires x < Pow2(k)
    ensures BitLen(x) <= k
  {
    if x > 0 { BitLenBelow(x / 2, k - 1); }
  }

  /** sovTypes is the number of bytes a varint takes. */
  lemma {:induction false} SovIsLength(v: uint64)
    ensures Sov(v) == |VarintBytes(v)|
    decreases v
  {
    OrOne(v);
    if v < 0x80 {
      if v > 0 { BitLenSmall(v); }
    } else {
      BitLenGroup(v);
      OrOne(v / 0x80);
      SovIsLength(v / 0x80);
    }
  }

  lemma {:induction false} VarintLength(v: nat, n: nat)
    requires n >= 1 && v < Pow2(7 * n)
    ensures |VarintBytes(v)| <= n
  {
    if v >= 0x80 {
      Pow2Add(7, 7 * (n - 1));
      Pow2Values();
      assert 7 + 7 * (n - 1) == 7 * n;
      assert v / 0x80 < Pow2(7 * (n - 1));
      if n > 1 { VarintLength(v / 0x80, n - 1); }
    }
  }

  lemma AtMostTenBytes(v: uint64)
    ensures |VarintBytes(v)| <= 10
  {
    Pow2Values();
    Pow2Monotone(64, 70);
    VarintLength(v, 10);
  }

  lemma VarintTail(v: nat)
    requires v >= 0x80
    ensures VarintBytes(v)[0] == v % 0x80 + 0x80 && VarintBytes(v)[1..] == VarintBytes(v / 0x80)
  {
  }

  /** The groups from position j on are those of v; one more is written. */
  lemma NextGroup(bytes: seq<byte>, j: nat, j': nat, v: nat)
    requires j <= |bytes| && VarintBytes(v) == bytes[j..] && v >= 0x80 && j' == j + 1
    ensures j < |bytes| && bytes[j] == v % 0x80 + 0x80 && VarintBytes(v / 0x80) == bytes[j'..]
  {
    VarintTail(v);
    assert bytes[j..][0] == bytes[j] && bytes[j..][1..] == bytes[j'..];
  }

  lemma LastGroup(bytes: seq<byte>, j: nat, v: nat)
    requires j <= |bytes| && VarintBytes(v) == bytes[j..] && v < 0x80
    ensures j + 1 == |bytes| && bytes[j] == v
  {
    assert bytes[j..] == [v] && bytes[j..][0] == bytes[j];
  }

  /** The loop that writes the groups of a varint from `base` on. */
  method PutVarint(dAtA: array<byte>, base: nat, value: uint64)
    requires base + |VarintBytes(value)| <= dAtA.Length
    modifies dAtA
    ensures forall j :: 0 <= j < dAtA.Length ==>
              dAtA[j] == if base <= j < base + |VarintBytes(value)| then VarintBytes(value)[j - base] else old(dAtA[j])
  {
    var v, at := value, base;
    ghost var bytes, j := VarintBytes(value), 0;
    while v >= 0x80
      invariant at == base + j && j <= |bytes| && VarintBytes(v) == bytes[j..]
      invariant forall i :: base <= i < at ==> dAtA[i] == bytes[i - base]
      invariant forall i :: 0 <= i < base || at <= i < dAtA.Length ==> dAtA[i] == old(dAtA[i])
      decreases v
    {
      NextGroup(bytes, j, j + 1, v);
      dAtA[at] := v % 0x80 + 0x80;  // v & 0x7f | 0x80
      v := v / 0x80;
      at := at + 1;
      j := j + 1;
    }
    LastGroup(bytes, j, v);
    dAtA[at] := v;
  }

  /** Writes a varint so that it ends at `offset`; `base` is where it starts. */
  method EncodeVarint(dAtA: array<byte>, offset: nat, value: uint64) returns (base: nat)
    requires Sov(value) <= offset <= dAtA.Length
    modifies dAtA
    ensures base == offset - Sov(value)
    ensures dAtA[base..offset] == VarintBytes(value)
    ensures dAtA[..base] == old(dAtA[..base]) && dAtA[offset..] == old(dAtA[offset..])
  {
    SovIsLength(value);
    base := offset - Sov(value);
    PutVarint(dAtA, base, value);
  }

  // ---------------------------------------------------------------- decoding

  /** The unbounded value at the head of s and what is left behind it, when k groups were read before. */
  function RawFrom(s: seq<byte>, k: nat): (r: Decoded<(nat, seq<byte>)>)
    requires k <= 10
    ensures r.Ok? ==> |r.value.1| < |s| && r.value.1 == s[|s| - |r.value.1|..]
    decreases |s|
  {
    if k == 10 then Err(IntOverflow)
    else if s == [] then Err(UnexpectedEOF)
    else if s[0] < 0x80 then Ok((s[0], s[1..]))
    else
      match RawFrom(s[1..], k + 1)
      case Err(e) => Err(e)
      case Ok((v, rest)) => Ok((s[0] - 0x80 + 0x80 * v, rest))
  }

  /** The varint at the head of s in uint64 arithmetic, and what is left behind it. */
  function Decode(s: seq<byte>): (r: Decoded<(uint64, seq<byte>)>)
    ensures r.Ok? ==> |r.value.1| < |s|
  {
    match RawFrom(s, 0)
    case Err(e) => Err(e)
    case Ok((v, rest)) => Ok((Uint64(v), rest))
  }

  /** A varint reads the same with more input behind it. */
  lemma {:induction false} RawPrefix(s: seq<byte>, k: nat, more: seq<byte>)
    requires k <= 10 && RawFrom(s, k).Ok?
    ensures RawFrom(s + more, k) == Ok((RawFrom(s, k).value.0, RawFrom(s, k).value.1 + more))
    decreases 10 - k
  {
    assert (s + more)[1..] == s[1..] + more;
    if s[0] >= 0x80 {
      RawPrefix(s[1..], k + 1, more);
    }
  }

  lemma {:induction false} RawOfVarint(v: nat, k: nat, rest: seq<byte>)
    requires |VarintBytes(v)| + k <= 10
    ensures RawFrom(VarintBytes(v) + rest, k) == Ok((v, rest))
    decreases v
  {
    var s := VarintBytes(v) + rest;
    if v >= 0x80 {
      assert s[1..] == VarintBytes(v / 0x80) + rest;
      RawOfVarint(v / 0x80, k + 1, rest);
    } else {
      assert s[1..] == rest;
    }
  }

  /** What was encoded is decoded, and nothing behind it is touched. */
  lemma VarintRoundTrip(v: uint64, rest: seq<byte>)
    ensures Decode(VarintBytes(v) + rest) == Ok((v, rest))
  {
    AtMostTenBytes(v);
    RawOfVarint(v, 0, rest);
    DecodeRaw(VarintBytes(v) + rest, v, rest);
  }

  lemma DecodeRaw(s: seq<byte>, v: uint64, rest: seq<byte>)
    requires RawFrom(s, 0) == Ok((v, rest))
    ensures Decode(s) == Ok((v, rest))
  {
  }

  // ---------------------------------------------------------------- the decoding loop

  lemma OrStep(x: nat, y: nat)
    ensures Or(x, y) / 2 == Or(x / 2, y / 2)
    ensures Or(x, y) % 2 == if x % 2 == 1 || y % 2 == 1 then 1 else 0
  {
  }

  lemma DivModUnique(x: nat, p: nat, q: nat, r: nat)
    requires r < p && x == p * q + r
    ensures x % p == r
  {
    var d := x / p;
    assert x == p * d + x % p;
    assert d > q ==> p * d >= p * (q + 1) == p * q + p;
    assert d < q ==> p * q >= p * (d + 1) == p * d + p;
  }

  lemma HalfSplit(x: nat, p: nat, q: nat, r: nat)
    requires x == 2 * (p * q) + r
    ensures x % 2 == r % 2 && x / 2 == p * q + r / 2
  {
    var pq := p * q;
  }

  lemma Division(x: nat, m: nat) returns (q: nat, r: nat)
    requires m > 0
    ensures x == m * q + r && r < m && x % m == r
  {
    q, r := x / m, x % m;
  }

  lemma TwiceProduct(m: nat, p: nat, q: nat)
    requires m == 2 * p
    ensures m * q == 2 * (p * q)
  {
  }

  lemma HalfMod(x: nat, m: nat, p: nat)
    requires m == 2 * p && p > 0
    ensures x % m % 2 == x % 2 && x % m / 2 == (x / 2) % p
  {
    var q, r := Division(x, m);
    TwiceProduct(m, p, q);
    HalfSplit(x, p, q, r);
    DivModUnique(x / 2, p, q, r / 2);
  }

  lemma ModHalf(x: nat, k: nat)
    requires k > 0
    ensures x % Pow2(k) % 2 == x % 2 && x % Pow2(k) / 2 == (x / 2) % Pow2(k - 1)
  {
    HalfMod(x, Pow2(k), Pow2(k - 1));
  }

  /** Or-ing truncated numbers is truncating the or. */
  lemma {:induction false} OrMod(x: nat, y: nat, k: nat)
    ensures Or(x % Pow2(k), y % Pow2(k)) == Or(x, y) % Pow2(k)
  {
    if k > 0 {
      ModHalf(x, k);
      ModHalf(y, k);
      ModHalf(Or(x, y), k);
      OrStep(x, y);
      OrStep(x % Pow2(k), y % Pow2(k));
      OrMod(x / 2, y / 2, k - 1);
    }
  }

  lemma AddCut(x: nat, y: nat, width: nat)
    requires Or(x, y) == x + y
    ensures Or(x % Pow2(width), y % Pow2(width)) == (x + y) % Pow2(width)
  {
    OrMod(x, y, width);
  }

  /** One more group or-ed in at its shift, both cut to `width` bits, adds it. */
  lemma AddGroup(acc: nat, group: nat, shift: nat, width: nat)
    requires acc < Pow2(shift)
    ensures Or(acc % Pow2(width), group * Pow2(shift) % Pow2(width)) == (acc + group * Pow2(shift)) % Pow2(width)
  {
    OrDisjoint(acc, group, shift);
    AddCut(acc, group * Pow2(shift), width);
  }

  lemma GroupBound(acc: nat, group: nat, shift: nat)
    requires acc < Pow2(shift) && group < 0x80
    ensures acc + group * Pow2(shift) < Pow2(shift + 7)
  {
    Pow2Add(shift, 7);
    Pow2Values();
    var p := Pow2(shift);
    assert (group + 1) * p == group * p + p;
    MulMonotone(group + 1, 0x80, p);
  }

  /** wire |= uint64(b & 0x7F) << shift, in a field of `width` bits. */
  function OrGroup(wire: nat, b: byte, shift: nat, width: nat): nat {
    Or(wire, b % 0x80 * Pow2(shift) % Pow2(width))
  }

  lemma OrGroupAdds(acc: nat, b: byte, shift: nat, width: nat)
    requires acc < Pow2(shift)
    ensures OrGroup(acc % Pow2(width), b, shift, width) == (acc + b % 0x80 * Pow2(shift)) % Pow2(width)
    ensures acc + b % 0x80 * Pow2(shift) < Pow2(shift + 7)
  {
    AddGroup(acc, b % 0x80, shift, width);
    GroupBound(acc, b % 0x80, shift);
  }

  /** The decoding loop from index i on, when k groups were read into `wire`. */
  function DecodeLoop(s: seq<byte>, i: nat, k: nat, wire: nat, width: nat): Decoded<(nat, nat)>
    requires i <= |s|
    decreases |s| - i
  {
    if 7 * k >= 64 then Err(IntOverflow)
    else if i >= |s| then Err(UnexpectedEOF)
    else
      var wire' := OrGroup(wire, s[i], 7 * k, width);
      if s[i] < 0x80 then Ok((wire', i + 1)) else DecodeLoop(s, i + 1, k + 1, wire', width)
  }

  lemma Distribute(acc: nat, p: nat, g: nat, v: nat)
    ensures acc + (g + 0x80 * v) * p == (acc + g * p) + v * (p * 0x80)
  {
    assert (0x80 * v) * p == v * (p * 0x80);
  }

  /** The raw value v, put above the accumulated groups and cut to the field. */
  function Assembled(acc: nat, k: nat, v: nat, width: nat): nat {
    (acc + v * Pow2(7 * k)) % Pow2(width)
  }

  lemma AssembledNext(acc: nat, k: nat, g: nat, v: nat, width: nat)
    ensures Assembled(acc, k, g + 0x80 * v, width) == Assembled(acc + g * Pow2(7 * k), k + 1, v, width)
  {
    Pow2Add(7 * k, 7);
    Pow2Values();
    assert 7 * k + 7 == 7 * (k + 1);
    Distribute(acc, Pow2(7 * k), g, v);
  }

  lemma LoopLast(s: seq<byte>, i: nat, k: nat, acc: nat, width: nat)
    requires i < |s| && k < 10 && acc < Pow2(7 * k) && s[i] < 0x80
    ensures DecodeLoop(s, i, k, acc % Pow2(width), width) == Ok((Assembled(acc, k, s[i], width), i + 1))
    ensures RawFrom(s[i..], k) == Ok((s[i], s[i + 1..]))
  {
    var b := s[i];
    assert b % 0x80 == b;
    OrGroupAdds(acc, b, 7 * k, width);
    assert s[i..][0] == b && s[i..][1..] == s[i + 1..];
  }

  lemma LoopMore(s: seq<byte>, i: nat, k: nat, acc: nat, width: nat)
    requires i < |s| && k < 10 && acc < Pow2(7 * k) && s[i] >= 0x80
    ensures var acc' := acc + s[i] % 0x80 * Pow2(7 * k);
            && acc' < Pow2(7 * (k + 1))
            && DecodeLoop(s, i, k, acc % Pow2(width), width) == DecodeLoop(s, i + 1, k + 1, acc' % Pow2(width), width)
  {
    OrGroupAdds(acc, s[i], 7 * k, width);
    assert 7 * k + 7 == 7 * (k + 1);
  }

  /** The specified reading from index i on, over k groups held in acc. */
  function Reading(s: seq<byte>, i: nat, k: nat, acc: nat, width: nat): Decoded<(nat, nat)>
    requires i <= |s| && k <= 10
  {
    match RawFrom(s[i..], k)
    case Err(e) => Err(e)
    case Ok((v, rest)) => Ok((Assembled(acc, k, v, width), |s| - |rest|))
  }

  lemma RawMore(s: seq<byte>, i: nat, k: nat)
    requires i < |s| && k < 10 && s[i] >= 0x80
    ensures RawFrom(s[i..], k)
         == match RawFrom(s[i + 1..], k + 1)
            case Err(e) => Err(e)
            case Ok((v, rest)) => Ok((s[i] % 0x80 + 0x80 * v, rest))
  {
    assert s[i..][0] == s[i] && s[i..][1..] == s[i + 1..];
  }

  lemma ReadingMore(s: seq<byte>, i: nat, k: nat, acc: nat, width: nat)
    requires i < |s| && k < 10 && s[i] >= 0x80
    ensures Reading(s, i, k, acc, width) == Reading(s, i + 1, k + 1, acc + s[i] % 0x80 * Pow2(7 * k), width)
  {
    RawMore(s, i, k);
    var rest := RawFrom(s[i + 1..], k + 1);
    if rest.Ok? { AssembledNext(acc, k, s[i] % 0x80, rest.value.0, width); }
  }

  /** The loop computes the raw value, cut to the field. */
  lemma {:induction false} LoopReads(s: seq<byte>, i: nat, k: nat, acc: nat, width: nat)
    requires i <= |s| && k <= 10 && acc < Pow2(7 * k)
    ensures DecodeLoop(s, i, k, acc % Pow2(width), width) == Reading(s, i, k, acc, width)
    decreases |s| - i
  {
    if k < 10 && i < |s| {
      if s[i] < 0x80 {
        LoopLast(s, i, k, acc, width);
      } else {
        LoopMore(s, i, k, acc, width);
        ReadingMore(s, i, k, acc, width);
        LoopReads(s, i + 1, k + 1, acc + s[i] % 0x80 * Pow2(7 * k), width);
      }
    }
  }

  /** A reader that returns an index does what a specified reader of the rest does. */
  predicate Reads<T(==)>(dAtA: seq<byte>, got: Decoded<(T, nat)>, spec: Decoded<(T, seq<byte>)>) {
    match spec
    case Err(e) => got == Err(e)
    case Ok((v, rest)) =>
      got.Ok? && got.value.0 == v && got.value.1 <= |dAtA| && dAtA[got.value.1..] == rest
  }

  /** A decoded value cut to `width` bits. */
  function Cut(r: Decoded<(nat, seq<byte>)>, width: nat): Decoded<(nat, seq<byte>)> {
    match r
    case Err(e) => Err(e)
    case Ok((v, rest)) => Ok((v % Pow2(width), rest))
  }

  lemma LoopIsCut(s: seq<byte>, start: nat, width: nat)
    requires start <= |s|
    ensures Reads(s, DecodeLoop(s, start, 0, 0, width), Cut(RawFrom(s[start..], 0), width))
  {
    assert Pow2(0) == 1;
    assert 0 % Pow2(width) == 0;
    LoopReads(s, start, 0, 0, width);
    var raw := RawFrom(s[start..], 0);
    if raw.Ok? {
      var rest := raw.value.1;
      assert s[|s| - |rest|..] == s[start..][|s| - start - |rest|..];
    }
  }

  /** The loop that assembles a varint into a field of `width` bits. */
  method DecodeVarint(dAtA: seq<byte>, start: nat, width: nat) returns (r: Decoded<(nat, nat)>)
    requires start <= |dAtA|
    ensures Reads(dAtA, r, Cut(RawFrom(dAtA[start..], 0), width))
  {
    LoopIsCut(dAtA, start, width);
    var iNdEx: nat, wire: nat, shift: nat := start, 0, 0;
    ghost var k: nat := 0;
    while true
      invariant shift == 7 * k && iNdEx <= |dAtA|
      invariant DecodeLoop(dAtA, iNdEx, k, wire, width) == DecodeLoop(dAtA, start, 0, 0, width)
      decreases |dAtA| - iNdEx
    {
      if shift >= 64 { return Err(IntOverflow); }
      if iNdEx >= |dAtA| { return Err(UnexpectedEOF); }
      var b := dAtA[iNdEx];
      iNdEx := iNdEx + 1;
      wire := OrGroup(wire, b, shift, width);
      if b < 0x80 { return Ok((wire, iNdEx)); }
      shift := shift + 7;
      k := k + 1;
    }
  }

  method DecodeUint64(dAtA: seq<byte>, start: nat) returns (r: Decoded<(uint64, nat)>)
    requires start <= |dAtA|
    ensures Reads(dAtA, r, Decode(dAtA[start..]))
  {
    Pow2Values();
    var cut := DecodeVarint(dAtA, start, 64);
    match cut
    case Err(e) => return Err(e);
    case Ok((v, next)) => return Ok((v, next));
  }

  // ---------------------------------------------------------------- exactly which bytes decode, and to what

  /** The first n bytes of s are a varint: at most ten, all but the last with their high bit set. */
  predicate VarintAt(s: seq<byte>, n: nat) {
    && 0 < n <= |s| && n <= 10 && s[n - 1] < 0x80
    && forall i :: 0 <= i < n - 1 ==> s[i] >= 0x80
  }

  /** Their value: seven bits each, the least significant first. */
  function GroupSum(s: seq<byte>, n: nat): nat
    requires n <= |s|
  {
    if n == 0 then 0 else GroupSum(s, n - 1) + s[n - 1] % 0x80 * Pow2(7 * (n - 1))
  }

  lemma {:induction false} GroupSumTail(s: seq<byte>, n: nat)
    requires 0 < n <= |s|
    ensures GroupSum(s, n) == s[0] % 0x80 + 0x80 * GroupSum(s[1..], n - 1)
  {
    Pow2Values();
    if n > 1 {
      var i := n - 1;
      GroupSumTail(s, i);
      Pow2Add(7 * (i - 1), 7);
      assert 7 * (i - 1) + 7 == 7 * i;
      assert s[1..][i - 1] == s[i];
      ShiftGroup(s[i] % 0x80, Pow2(7 * (i - 1)), GroupSum(s[1..], i - 1));
    }
  }

  lemma ShiftGroup(g: nat, p: nat, sum: nat)
    ensures 0x80 * sum + g * (p * 0x80) == 0x80 * (sum + g * p)
  {
  }

  lemma RawStep(s: seq<byte>, k: nat, k': nat)
    requires k < 10 && k' == k + 1 && s != []
    ensures RawFrom(s, k)
         == if s[0] < 0x80 then Ok((s[0], s[1..]))
            else
              match RawFrom(s[1..], k')
              case Err(e) => Err(e)
              case Ok((v, rest)) => Ok((s[0] % 0x80 + 0x80 * v, rest))
  {
  }

  lemma {:induction false} RawExactly(s: seq<byte>, k: nat, n: nat)
    requires k <= 10 && 0 < n <= |s| && k + n <= 10 && s[n - 1] < 0x80
    requires forall i :: 0 <= i < n - 1 ==> s[i] >= 0x80
    ensures RawFrom(s, k) == Ok((GroupSum(s, n), s[n..]))
    decreases n
  {
    var tail, k', n' := s[1..], k + 1, n - 1;
    RawStep(s, k, k');
    GroupSumTail(s, n);
    if n > 1 {
      RawExactly(tail, k', n');
      assert tail[n'..] == s[n..];
    }
  }

  lemma {:induction false} RawFails(s: seq<byte>, k: nat)
    requires k <= 10 && forall i :: 0 <= i < 10 - k && i < |s| ==> s[i] >= 0x80
    ensures RawFrom(s, k) == Err(if |s| >= 10 - k then IntOverflow else UnexpectedEOF)
    decreases 10 - k
  {
    if k < 10 && s != [] {
      RawFails(s[1..], k + 1);
    }
  }

  /** How many leading bytes of s have their high bit set, up to ten. */
  function Leading(s: seq<byte>): (n: nat)
    ensures n <= |s| && n <= 10 && forall i :: 0 <= i < n ==> s[i] >= 0x80
    ensures n < 10 && n < |s| ==> s[n] < 0x80
  {
    LeadingFrom(s, 0)
  }

  function LeadingFrom(s: seq<byte>, n: nat): (r: nat)
    requires n <= |s| && n <= 10 && forall i :: 0 <= i < n ==> s[i] >= 0x80
    ensures r <= |s| && r <= 10 && forall i :: 0 <= i < r ==> s[i] >= 0x80
    ensures r < 10 && r < |s| ==> s[r] < 0x80
    decreases 10 - n
  {
    if n < 10 && n < |s| && s[n] >= 0x80 then LeadingFrom(s, n + 1) else n
  }

  /** A varint decodes to its value in 64 bits; ten groups without an end overflow, fewer at the end of input end it. */
  lemma DecodesExactly(s: seq<byte>)
    ensures Decode(s).Ok? <==> exists n: nat :: VarintAt(s, n)
    ensures forall n: nat :: VarintAt(s, n) ==> Decode(s) == Ok((Uint64(GroupSum(s, n)), s[n..]))
    ensures Decode(s) == Err(IntOverflow) <==> |s| >= 10 && forall i :: 0 <= i < 10 ==> s[i] >= 0x80
    ensures Decode(s) == Err(UnexpectedEOF) <==> |s| < 10 && forall i :: 0 <= i < |s| ==> s[i] >= 0x80
  {
    forall n: nat | VarintAt(s, n) ensures Decode(s) == Ok((Uint64(GroupSum(s, n)), s[n..])) {
      RawExactly(s, 0, n);
    }
    var n := Leading(s);
    if n < 10 && n < |s| {
      assert VarintAt(s, n + 1);
    } else {
      RawFails(s, 0);
    }
  }

  lemma {:induction false} BitLenAtLeast(x: nat, k: nat)
    requires x >= Pow2(k)
    ensures BitLen(x) > k
  {
    Pow2Values();
    if k > 0 { BitLenAtLeast(x / 2, k - 1); }
  }

  /** A negative integer, sign-extended to 64 bits, takes ten bytes. */
  lemma NegativesTakeTen(v: uint64)
    requires v >= TWO_63
    ensures |VarintBytes(v)| == 10
  {
    AtMostTenBytes(v);
    SovIsLength(v);
    OrOne(v);
    Pow2Values();
    BitLenAtLeast(v, 63);
  }
}
