/** The fixed-point arithmetic behind the quorum test: decimals are integers scaled by 10^18. */
module Decimal {
  import opened Common

  const SCALE: int := 1_000_000_000_000_000_000

  /** Division of integers rounding to the nearest one, ties to the even one. */
  function RoundHalfEven(x: nat): int {
    var q, r := x / SCALE, x % SCALE;
    if 2 * r < SCALE || (2 * r == SCALE && q % 2 == 0) then q else q + 1
  }

  function FromInt(n: int): int { n * SCALE }

  /** The product of two decimals, rounded symmetrically around zero. */
  function Mul(a: int, b: int): int {
    if a * b < 0 then -RoundHalfEven(-(a * b)) else RoundHalfEven(a * b)
  }

  /** Truncation towards zero. */
  function TruncateInt(a: int): int {
    if a < 0 then -(-a / SCALE) else a / SCALE
  }

  /** The power a quorum needs; None is the panic of reading a negative integer as a uint64. */
  function RequiredPower(totalPower: uint64, fraction: int): Option<uint64> {
    var required := TruncateInt(Mul(FromInt(ToInt64(totalPower)), fraction));
    if 0 <= required < TWO_64 then Some(required) else None
  }

  lemma RoundExact(y: nat)
    ensures RoundHalfEven(y * SCALE) == y
  {
  }

  lemma MulFromInt(n: int, fraction: int)
    ensures Mul(FromInt(n), fraction) == n * fraction
  {
    assert FromInt(n) * fraction == n * fraction * SCALE;
    if n * fraction < 0 {
      RoundExact(-(n * fraction));
      assert -(n * fraction * SCALE) == -(n * fraction) * SCALE;
    } else {
      RoundExact(n * fraction);
    }
  }

  lemma ScaledBound(n: nat, fraction: nat)
    requires fraction <= SCALE
    ensures n * fraction / SCALE <= n
  {
    assert n * fraction <= n * SCALE;
  }

  /**
   For a valid fraction the required power is floor(total * fraction), with no rounding
   anywhere. A total of 2^63 or more is read as negative: then a quorum needs nothing, or
   the computation panics, and the latter exactly when the product reaches one unit.
   */
  lemma RequiredPowerIsFloor(totalPower: uint64, fraction: int)
    requires 0 < fraction <= SCALE
    ensures totalPower < TWO_63 ==> RequiredPower(totalPower, fraction) == Some(totalPower * fraction / SCALE)
    ensures totalPower >= TWO_63 ==>
              RequiredPower(totalPower, fraction)
                == if (TWO_64 - totalPower) * fraction < SCALE then Some(0) else None
  {
    var n := ToInt64(totalPower);
    MulFromInt(n, fraction);
    if totalPower < TWO_63 {
      ScaledBound(totalPower, fraction);
    } else {
      assert n * fraction == -((TWO_64 - totalPower) * fraction);
      assert (TWO_64 - totalPower) * fraction > 0;
    }
  }

  /** From (2 * fraction - 1) * total >= 2 on, twice the quorum passes the total. */
  lemma TwiceTheFloor(totalPower: nat, fraction: nat)
    requires (2 * fraction - SCALE) * totalPower >= 2 * SCALE
    ensures 2 * (totalPower * fraction / SCALE) > totalPower
  {
    var product := totalPower * fraction;
    assert (2 * fraction - SCALE) * totalPower == 2 * product - SCALE * totalPower;
    assert product < (product / SCALE + 1) * SCALE;
  }
}
