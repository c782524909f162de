/** The bitmap helper of the network module: byte slices read as sets of validator indices. */
module Bitmap {
  import opened Bits

  function OrByte(x: byte, y: byte): byte {
    assert Pow2(8) == 0x100;
    OrWidth(x, y, 8);
    Or(x, y)
  }

  function AndByte(x: byte, y: byte): byte {
    assert Pow2(8) == 0x100;
    AndWidth(x, y, 8);
    And(x, y)
  }

  /** The byte 1 << k. */
  function Mask(k: nat): byte
    requires k < 8
  {
    assert Pow2(7) == 0x80;
    Pow2Monotone(k, 7);
    Pow2(k)
  }

  predicate IsSet(bitmap: seq<byte>, index: int) {
    if index < 0 || index >= |bitmap| * 8 then false
    else Bit(bitmap[index / 8], index % 8)
  }

  /** The indices in [lo, hi) that a bitmap holds. */
  function IndicesIn(bitmap: seq<byte>, lo: int, hi: int): set<int> {
    set i | lo <= i < hi && IsSet(bitmap, i)
  }

  function Indices(bitmap: seq<byte>): set<int> {
    IndicesIn(bitmap, 0, |bitmap| * 8)
  }

  /** The bitmap with one more bit; an index outside it is ignored. */
  function WithBit(bitmap: seq<byte>, index: int): seq<byte> {
    if index < 0 || index >= |bitmap| * 8 then bitmap
    else bitmap[index / 8 := OrByte(bitmap[index / 8], Mask(index % 8))]
  }

  /** What OR leaves in the destination d. */
  function OrBytes(d: seq<byte>, s: seq<byte>): seq<byte> {
    seq(|d|, i requires 0 <= i < |d| => if i < |s| then OrByte(d[i], s[i]) else d[i])
  }

  /** What AND leaves in the destination d. */
  function AndBytes(d: seq<byte>, s: seq<byte>): seq<byte> {
    seq(|d|, i requires 0 <= i < |d| => if i < |s| then AndByte(d[i], s[i]) else d[i])
  }

  function OnesCount8(b: byte): nat {
    OnesBelow(b, 8)
  }

  function OnesBelow(b: byte, k: nat): nat {
    if k == 0 then 0 else OnesBelow(b, k - 1) + (if Bit(b, k - 1) then 1 else 0)
  }

  // ---------------------------------------------------------------- bitmaps as index sets

  /** Setting a bit is insertion, for an index inside the bitmap. */
  lemma WithBitInserts(bitmap: seq<byte>, index: int)
    ensures |WithBit(bitmap, index)| == |bitmap|
    ensures Indices(WithBit(bitmap, index))
         == Indices(bitmap) + (if 0 <= index < |bitmap| * 8 then {index} else {})
  {
    if 0 <= index < |bitmap| * 8 {
      var r := WithBit(bitmap, index);
      forall i | 0 <= i < |bitmap| * 8 ensures IsSet(r, i) <==> IsSet(bitmap, i) || i == index {
        if i / 8 == index / 8 {
          OrBit(bitmap[index / 8], Pow2(index % 8), i % 8);
          Pow2Bit(index % 8, i % 8);
        }
      }
    }
  }

  /** A bitmap is its length and its index set. */
  lemma Extensional(a: seq<byte>, b: seq<byte>)
    requires |a| == |b| && Indices(a) == Indices(b)
    ensures a == b
  {
    forall k | 0 <= k < |a| ensures a[k] == b[k] {
      forall j | 0 <= j < 8 ensures Bit(a[k], j) <==> Bit(b[k], j) {
        var i := 8 * k + j;
        assert i / 8 == k && i % 8 == j;
        assert i in Indices(a) <==> i in Indices(b);
      }
      assert Pow2(8) == 0x100;
      BitsDetermine(a[k], b[k], 8);
    }
  }

  lemma IndicesInNext(bitmap: seq<byte>, lo: int, hi: int)
    requires lo <= hi
    ensures IndicesIn(bitmap, lo, hi + 1) == IndicesIn(bitmap, lo, hi) + (if IsSet(bitmap, hi) then {hi} else {})
    ensures |IndicesIn(bitmap, lo, hi + 1)| == |IndicesIn(bitmap, lo, hi)| + (if IsSet(bitmap, hi) then 1 else 0)
  {
    assert IndicesIn(bitmap, lo, hi + 1) == IndicesIn(bitmap, lo, hi) + (if IsSet(bitmap, hi) then {hi} else {});
  }

  lemma {:induction false} OnesOfByte(bitmap: seq<byte>, n: nat, k: nat)
    requires n < |bitmap| && k <= 8
    ensures |IndicesIn(bitmap, 0, 8 * n + k)| == |IndicesIn(bitmap, 0, 8 * n)| + OnesBelow(bitmap[n], k)
  {
    if k > 0 {
      OnesOfByte(bitmap, n, k - 1);
      assert IsSet(bitmap, 8 * n + k - 1) <==> Bit(bitmap[n], k - 1);
      IndicesInNext(bitmap, 0, 8 * n + k - 1);
    }
  }

  /** Union, cut to the length of the destination d. */
  function SharedUnion(d: seq<byte>, s: seq<byte>): set<int> {
    Indices(d) + set i | i in Indices(s) && i < |d| * 8
  }

  /** Intersection on the shared length; beyond the source s, d is kept. */
  function SharedIntersection(d: seq<byte>, s: seq<byte>): set<int> {
    set i | i in Indices(d) && (i in Indices(s) || i >= |s| * 8)
  }

  /** Or-ing the shared bytes is union. */
  lemma OrIsUnion(d: seq<byte>, s: seq<byte>)
    ensures Indices(OrBytes(d, s)) == SharedUnion(d, s)
  {
    var r := OrBytes(d, s);
    forall i | 0 <= i < |d| * 8 ensures IsSet(r, i) <==> IsSet(d, i) || IsSet(s, i) {
      if i / 8 < |s| { OrBit(d[i / 8], s[i / 8], i % 8); }
    }
  }

  /** And-ing the shared bytes is intersection. */
  lemma AndIsIntersection(d: seq<byte>, s: seq<byte>)
    ensures Indices(AndBytes(d, s)) == SharedIntersection(d, s)
  {
    var r := AndBytes(d, s);
    forall i | 0 <= i < |d| * 8 ensures IsSet(r, i) <==> IsSet(d, i) && (IsSet(s, i) || i >= |s| * 8) {
      if i / 8 < |s| { AndBit(d[i / 8], s[i / 8], i % 8); }
    }
  }

  // ---------------------------------------------------------------- the helper

  method NewBitmap(n: nat) returns (a: array<byte>)
    ensures fresh(a) && a.Length == (n + 7) / 8
    ensures Indices(a[..]) == {} && forall i :: 0 <= i < a.Length ==> a[i] == 0
  {
    var size := (n + 7) / 8;
    a := new byte[size](_ => 0);
    forall i ensures !IsSet(a[..], i) {
      if 0 <= i < a.Length * 8 { ZeroBit(i % 8); }
    }
  }

  method SetBit(bitmap: array<byte>, index: int)
    modifies bitmap
    ensures bitmap[..] == WithBit(old(bitmap[..]), index)
    ensures Indices(bitmap[..])
         == old(Indices(bitmap[..])) + (if 0 <= index < bitmap.Length * 8 then {index} else {})
  {
    WithBitInserts(bitmap[..], index);
    if index < 0 || index >= bitmap.Length * 8 { return; }
    var byteIndex, bitIndex := index / 8, index % 8;
    bitmap[byteIndex] := OrByte(bitmap[byteIndex], Mask(bitIndex));
  }

  method PopCount(bitmap: seq<byte>) returns (count: nat)
    ensures count == |Indices(bitmap)|
  {
    count := 0;
    for n := 0 to |bitmap|
      invariant count == |IndicesIn(bitmap, 0, 8 * n)|
    {
      OnesOfByte(bitmap, n, 8);
      count := count + OnesCount8(bitmap[n]);
    }
  }

  method OR(dst: array<byte>, src: array<byte>)
    modifies dst
    ensures dst[..] == OrBytes(old(dst[..]), old(src[..]))
  {
    var minLen := dst.Length;
    if src.Length < minLen { minLen := src.Length; }
    ghost var d, s := dst[..], src[..];
    for i := 0 to minLen
      invariant forall k :: 0 <= k < i ==> dst[k] == OrByte(d[k], s[k])
      invariant forall k :: i <= k < dst.Length ==> dst[k] == d[k]
      invariant forall k :: i <= k < src.Length ==> src[k] == s[k]
    {
      dst[i] := OrByte(dst[i], src[i]);
    }
    assert dst[..] == OrBytes(d, s);
  }

  method AND(dst: array<byte>, src: array<byte>)
    modifies dst
    ensures dst[..] == AndBytes(old(dst[..]), old(src[..]))
  {
    var minLen := dst.Length;
    if src.Length < minLen { minLen := src.Length; }
    ghost var d, s := dst[..], src[..];
    for i := 0 to minLen
      invariant forall k :: 0 <= k < i ==> dst[k] == AndByte(d[k], s[k])
      invariant forall k :: i <= k < dst.Length ==> dst[k] == d[k]
      invariant forall k :: i <= k < src.Length ==> src[k] == s[k]
    {
      dst[i] := AndByte(dst[i], src[i]);
    }
    assert dst[..] == AndBytes(d, s);
  }

  method CountInRange(bitmap: seq<byte>, start: int, end: int) returns (count: nat)
    ensures count == |IndicesIn(bitmap, start, end)|
  {
    count := 0;
    var i := start;
    while i < end && i < |bitmap| * 8
      invariant start <= i && (i <= end || i == start)
      invariant count == |IndicesIn(bitmap, start, i)|
    {
      IndicesInNext(bitmap, start, i);
      if IsSet(bitmap, i) { count := count + 1; }
      i := i + 1;
    }
    assert IndicesIn(bitmap, start, end) == IndicesIn(bitmap, start, i);
  }
}
