/** Power sums over bitmaps: quorums intersect, attestations add up, confirmations stay. */
module Quorum {
  import opened Common
  import opened Bits
  import opened Bitmap
  import opened Network
  import Decimal

  // ---------------------------------------------------------------- sums

  lemma {:induction false} SumMonotone(powers: map<uint16, uint64>, a: set<int>, b: set<int>, n: nat)
    requires forall i :: i in a && 0 <= i < n ==> i in b
    ensures SumBelow(powers, a, n) <= SumBelow(powers, b, n)
  {
    if n > 0 { SumMonotone(powers, a, b, n - 1); }
  }

  lemma {:induction false} SumUnionIntersection(powers: map<uint16, uint64>, a: set<int>, b: set<int>, n: nat)
    ensures SumBelow(powers, a, n) + SumBelow(powers, b, n)
         == SumBelow(powers, a + b, n) + SumBelow(powers, a * b, n)
  {
    if n > 0 { SumUnionIntersection(powers, a, b, n - 1); }
  }

  lemma {:induction false} SumInsert(powers: map<uint16, uint64>, a: set<int>, i: int, n: nat)
    requires i !in a
    ensures SumBelow(powers, a + {i}, n) == SumBelow(powers, a, n) + (if 0 <= i < n then PowerAt(powers, i) else 0)
  {
    if n > 0 { SumInsert(powers, a, i, n - 1); }
  }

  lemma {:induction false} SumOfNone(powers: map<uint16, uint64>, n: nat)
    ensures SumBelow(powers, {}, n) == 0
  {
    if n > 0 { SumOfNone(powers, n - 1); }
  }

  lemma {:induction false} SumPositive(powers: map<uint16, uint64>, a: set<int>, n: nat)
    requires SumBelow(powers, a, n) > 0
    ensures exists i :: i in a && 0 <= i < n && PowerAt(powers, i) > 0
  {
    if n - 1 in a && PowerAt(powers, n - 1) > 0 {
    } else {
      SumPositive(powers, a, n - 1);
    }
  }

  lemma {:induction false} SumCut(powers: map<uint16, uint64>, a: set<int>, m: nat, n: nat)
    requires m <= n && forall i :: i in a ==> i < m
    ensures SumBelow(powers, a, n) == SumBelow(powers, a, m)
  {
    if m < n { SumCut(powers, a, m, n - 1); }
  }

  /** The whole power table. */
  function TotalIndexed(powers: map<uint16, uint64>): nat {
    SumBelow(powers, powers.Keys, TWO_16)
  }

  /** The 16-bit keys under which the positions of a bitmap find their powers. */
  function Slots(bitmap: seq<byte>): set<int> {
    set i | i in Indices(bitmap) :: Uint16(i)
  }

  predicate DistinctSlots(members: set<int>) {
    forall i, j :: i in members && j in members && i != j ==> Uint16(i) != Uint16(j)
  }

  /** No two positions share a key. */
  predicate Unaliased(bitmap: seq<byte>) {
    DistinctSlots(Indices(bitmap))
  }

  /** A bitmap short enough for every position to have its own key. */
  predicate Short(bitmap: seq<byte>) {
    |bitmap| <= 8192
  }

  lemma ShortUnaliased(bitmap: seq<byte>)
    requires Short(bitmap)
    ensures Unaliased(bitmap) && Slots(bitmap) == Indices(bitmap)
  {
    forall i | i in Indices(bitmap) ensures Uint16(i) == i { Narrow(i); }
  }

  function SlotsBelow(members: set<int>, n: nat): set<int> {
    set i | i in members && 0 <= i < n :: Uint16(i)
  }

  lemma SlotPower(powers: map<uint16, uint64>, i: int)
    ensures PowerAt(powers, Uint16(i)) == PowerAt(powers, i)
  {
    Narrow(Uint16(i));
  }

  /** Without shared keys the sum over positions is the sum over keys. */
  lemma {:induction false} SlotSum(powers: map<uint16, uint64>, members: set<int>, n: nat)
    requires DistinctSlots(members)
    ensures SumBelow(powers, members, n) == SumBelow(powers, SlotsBelow(members, n), TWO_16)
  {
    if n == 0 {
      SumOfNone(powers, TWO_16);
      assert SlotsBelow(members, 0) == {};
    } else {
      var i := n - 1;
      var before := SlotsBelow(members, i);
      SlotSum(powers, members, i);
      if i in members {
        assert SlotsBelow(members, n) == before + {Uint16(i)};
        SumInsert(powers, before, Uint16(i), TWO_16);
        SlotPower(powers, i);
      } else {
        assert SlotsBelow(members, n) == before;
      }
    }
  }

  lemma WithinTable(powers: map<uint16, uint64>, members: set<int>, n: nat)
    requires n <= TWO_16 && AllPowered(powers, members)
    ensures SumBelow(powers, members, n) <= TotalIndexed(powers)
  {
    SumMonotone(powers, members, powers.Keys, n);
    PrefixOfTable(powers, n);
  }

  lemma {:induction false} PrefixOfTable(powers: map<uint16, uint64>, n: nat)
    requires n <= TWO_16
    ensures SumBelow(powers, powers.Keys, n) <= TotalIndexed(powers)
    decreases TWO_16 - n
  {
    if n < TWO_16 { PrefixOfTable(powers, n + 1); }
  }

  lemma SlotsPowered(powers: map<uint16, uint64>, bitmap: seq<byte>)
    requires AllPowered(powers, Indices(bitmap))
    ensures AllPowered(powers, Slots(bitmap))
  {
    forall k | k in Slots(bitmap) ensures Uint16(k) in powers {
      Narrow(k);
    }
  }

  /**
   For a bitmap without shared keys and a table that fits a uint64, the voted power is the plain
   sum over the positions, and over their keys; it never exceeds the table, and it fails exactly
   when a member has no power.
   */
  lemma VotedPowerIsSum(powers: map<uint16, uint64>, bitmap: seq<byte>)
    requires Unaliased(bitmap) && TotalIndexed(powers) < TWO_64
    ensures VotedPower(powers, bitmap).Err? <==> exists i :: i in Indices(bitmap) && Uint16(i) !in powers
    ensures VotedPower(powers, bitmap).Ok? ==>
              VotedPower(powers, bitmap).value == SumBelow(powers, Indices(bitmap), |bitmap| * 8)
                                               == SumBelow(powers, Slots(bitmap), TWO_16) <= TotalIndexed(powers)
  {
    if AllPowered(powers, Indices(bitmap)) {
      SlotSum(powers, Indices(bitmap), |bitmap| * 8);
      assert SlotsBelow(Indices(bitmap), |bitmap| * 8) == Slots(bitmap);
      SlotsPowered(powers, bitmap);
      WithinTable(powers, Slots(bitmap), TWO_16);
    }
  }

  // ---------------------------------------------------------------- quorum intersection

  predicate Accepted(st: Store, bitmap: seq<byte>, totalPower: uint64) {
    var voted := VotedPower(st.validatorPower, bitmap);
    voted.Ok? && CheckQuorum(st, voted.value, totalPower) == Ok(true)
  }

  /** A key with power that both bitmaps count. */
  predicate ShareVoter(powers: map<uint16, uint64>, a: seq<byte>, b: seq<byte>) {
    exists k :: k in Slots(a) * Slots(b) && PowerAt(powers, k) > 0
  }

  /** Two accepted bitmaps over one table share a validator of positive power once twice the quorum passes the total. */
  lemma QuorumsMeet(st: Store, a: seq<byte>, b: seq<byte>, totalPower: uint64, required: nat)
    requires GetParams(st).quorumFraction.Some?
    requires Decimal.RequiredPower(totalPower, GetParams(st).quorumFraction.value) == Some(required)
    requires 2 * required > totalPower && TotalIndexed(st.validatorPower) <= totalPower
    requires Unaliased(a) && Unaliased(b) && Accepted(st, a, totalPower) && Accepted(st, b, totalPower)
    ensures ShareVoter(st.validatorPower, a, b)
  {
    var powers, sa, sb := st.validatorPower, Slots(a), Slots(b);
    VotedPowerIsSum(powers, a);
    VotedPowerIsSum(powers, b);
    SlotsPowered(powers, a);
    SlotsPowered(powers, b);
    SumUnionIntersection(powers, sa, sb, TWO_16);
    WithinTable(powers, sa + sb, TWO_16);
    SumPositive(powers, sa * sb, TWO_16);
  }

  /** The caller's condition on the fraction: (2 * fraction - 1) * total >= 2. */
  lemma QuorumIntersection(st: Store, a: seq<byte>, b: seq<byte>, totalPower: uint64, fraction: int)
    requires GetParams(st).quorumFraction == Some(fraction) && 0 < fraction <= Decimal.SCALE
    requires totalPower < TWO_63 && (2 * fraction - Decimal.SCALE) * totalPower >= 2 * Decimal.SCALE
    requires TotalIndexed(st.validatorPower) <= totalPower
    requires Unaliased(a) && Unaliased(b) && Accepted(st, a, totalPower) && Accepted(st, b, totalPower)
    ensures ShareVoter(st.validatorPower, a, b)
  {
    Decimal.RequiredPowerIsFloor(totalPower, fraction);
    Decimal.TwiceTheFloor(totalPower, fraction);
    QuorumsMeet(st, a, b, totalPower, totalPower * fraction / Decimal.SCALE);
  }

  lemma EnoughPower(st: Store, bitmap: seq<byte>, totalPower: uint64, required: nat)
    requires GetParams(st).quorumFraction.Some?
    requires Decimal.RequiredPower(totalPower, GetParams(st).quorumFraction.value) == Some(required)
    requires VotedPower(st.validatorPower, bitmap).Ok? && VotedPower(st.validatorPower, bitmap).value >= required
    ensures Accepted(st, bitmap, totalPower)
  {
  }

  /** The bound is exact: at 2 * required <= total, two validators can hold a quorum each. */
  lemma QuorumsMayMiss(params: Params, totalPower: uint64, required: nat)
    requires params.quorumFraction.Some?
    requires Decimal.RequiredPower(totalPower, params.quorumFraction.value) == Some(required)
    requires 2 * required <= totalPower
    ensures var powers := map[0 := required, 1 := totalPower - required];
            var st := EMPTY_STORE.(validatorPower := powers, params := Some(params));
            && TotalIndexed(powers) == totalPower
            && Accepted(st, [0x01], totalPower) && Accepted(st, [0x02], totalPower)
            && !ShareVoter(powers, [0x01], [0x02])
  {
    var powers: map<uint16, uint64> := map[0 := required, 1 := totalPower - required];
    var st := EMPTY_STORE.(validatorPower := powers, params := Some(params));
    TwoEntries(powers, powers.Keys, TWO_16);
    LoneVote(powers, 0);
    LoneVote(powers, 1);
    EnoughPower(st, [0x01], totalPower, required);
    EnoughPower(st, [0x02], totalPower, required);
  }

  /** One vote in a table of two. */
  lemma LoneVote(powers: map<uint16, uint64>, k: nat)
    requires powers.Keys == {0, 1} && k < 2
    ensures var bitmap := [if k == 0 then 0x01 else 0x02];
            VotedPower(powers, bitmap) == Ok(powers[k]) && Slots(bitmap) == {k}
  {
    var bitmap := [if k == 0 then 0x01 else 0x02];
    OneBit(k);
    assert Mask(k) == bitmap[0];
    ShortUnaliased(bitmap);
    TwoEntries(powers, {k}, 8);
    Narrow(k);
    Wraps(powers[k]);
  }

  lemma BlankIsEmpty(n: nat)
    ensures Indices(BlankBitmap(n)) == {}
  {
    forall i ensures !IsSet(BlankBitmap(n), i) {
      if 0 <= i < |BlankBitmap(n)| * 8 { ZeroBit(i % 8); }
    }
  }

  const LONG_BITMAP: seq<byte> := WithBit(WithBit(BlankBitmap(65544), 0), 65536)

  lemma LongIndices()
    ensures |LONG_BITMAP| == 8193 && Indices(LONG_BITMAP) == {0, 65536} && Slots(LONG_BITMAP) == {0}
  {
    var blank := BlankBitmap(65544);
    BlankIsEmpty(65544);
    WithBitInserts(blank, 0);
    WithBitInserts(WithBit(blank, 0), 65536);
    assert {} + {0} + {65536} == {0, 65536};
    assert Uint16(0) == 0 && Uint16(65536) == 0;
    forall k | k in Slots(LONG_BITMAP) ensures k == 0 { }
    assert 0 in Indices(LONG_BITMAP);
  }

  /** With two positions on one key the power behind it counts twice. */
  lemma LongPower(powers: map<uint16, uint64>)
    requires 0 in powers && 2 * powers[0] < TWO_64
    ensures VotedPower(powers, LONG_BITMAP) == Ok(2 * powers[0])
  {
    LongIndices();
    SumOfNone(powers, 65544);
    SumInsert(powers, {}, 0, 65544);
    assert {} + {0} == {0} && {0} + {65536} == {0, 65536};
    SumInsert(powers, {0}, 65536, 65544);
    assert Uint16(0) == 0 && Uint16(65536) == 0;
    assert SumBelow(powers, {0, 65536}, 65544) == 2 * powers[0];
    Wraps(2 * powers[0]);
  }

  /** Sharing a key breaks the intersection: 10 of 30 counted twice and the other 20 are both a two-thirds quorum. */
  lemma OverlongQuorums(params: Params)
    requires params.quorumFraction == Some(667_000_000_000_000_000)
    ensures var powers := map[0 := 10, 1 := 20];
            var st := EMPTY_STORE.(validatorPower := powers, params := Some(params));
            && TotalIndexed(powers) == 30 && !Unaliased(LONG_BITMAP)
            && Accepted(st, LONG_BITMAP, 30) && Accepted(st, [0x02], 30)
            && !ShareVoter(powers, LONG_BITMAP, [0x02])
  {
    var powers: map<uint16, uint64> := map[0 := 10, 1 := 20];
    var st := EMPTY_STORE.(validatorPower := powers, params := Some(params));
    Decimal.RequiredPowerIsFloor(30, 667_000_000_000_000_000);
    TwoEntries(powers, powers.Keys, TWO_16);
    LongIndices();
    LongPower(powers);
    LoneVote(powers, 1);
    assert 0 in Indices(LONG_BITMAP) && 65536 in Indices(LONG_BITMAP) && Uint16(65536) == Uint16(0);
    EnoughPower(st, LONG_BITMAP, 30, 20);
    EnoughPower(st, [0x02], 30, 20);
    SharesNoSlot(powers, LONG_BITMAP, [0x02]);
  }

  lemma SharesNoSlot(powers: map<uint16, uint64>, a: seq<byte>, b: seq<byte>)
    requires Slots(a) !! Slots(b)
    ensures !ShareVoter(powers, a, b)
  {
  }

  lemma OneBit(k: nat)
    requires k < 8
    ensures Indices([Mask(k)]) == {k}
  {
    forall i | 0 <= i < 8 ensures IsSet([Mask(k)], i) <==> i == k {
      Pow2Bit(k, i);
    }
  }

  lemma {:induction false} TwoEntries(powers: map<uint16, uint64>, members: set<int>, n: nat)
    requires powers.Keys == {0, 1} && 2 <= n <= TWO_16
    ensures SumBelow(powers, members, n)
         == (if 0 in members then PowerAt(powers, 0) else 0) + (if 1 in members then PowerAt(powers, 1) else 0)
  {
    if n > 2 { TwoEntries(powers, members, n - 1); }
    else { assert SumBelow(powers, members, 1) == if 0 in members then PowerAt(powers, 0) else 0; }
  }
}
