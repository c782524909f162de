/** Datatypes and machine integers shared by every component. */
module Common {

  datatype Option<+T> = None | Some(value: T)

  datatype Result<+T, +E> = Ok(value: T) | Err(error: E)

  const TWO_16: int := 0x1_0000
  const TWO_31: int := 0x8000_0000
  const TWO_32: int := 0x1_0000_0000
  const TWO_63: int := 0x8000_0000_0000_0000
  const TWO_64: int := 0x1_0000_0000_0000_0000

  type uint16 = x: int | 0 <= x < TWO_16
  type uint32 = x: int | 0 <= x < TWO_32
  type uint64 = x: int | 0 <= x < TWO_64
  type int32 = x: int | -TWO_31 <= x < TWO_31
  type int64 = x: int | -TWO_63 <= x < TWO_63

  /** Unsigned arithmetic wraps around. */
  function Uint16(x: int): uint16 { x % 0x1_0000 }
  function Uint32(x: int): uint32 { x % 0x1_0000_0000 }
  function Uint64(x: int): uint64 { x % 0x1_0000_0000_0000_0000 }

  /** Go's conversion of an int64 to a uint64: the same 64 bits. */
  function ToUint64(x: int64): uint64 {
    if x < 0 then x + TWO_64 else x
  }

  /** Go's conversion of a uint64 to an int64: the same 64 bits. */
  function ToInt64(x: uint64): int64 {
    if x < TWO_63 then x else x - TWO_64
  }

  function Min(a: int, b: int): int {
    if a < b then a else b
  }

  /** The members of a sequence. */
  function Elems<T>(s: seq<T>): set<T> {
    set x | x in s
  }

  predicate Distinct<T(==)>(s: seq<T>) {
    forall i, j :: 0 <= i < j < |s| ==> s[i] != s[j]
  }

  lemma MulMonotone(a: nat, b: nat, q: nat)
    requires a <= b
    ensures a * q <= b * q
  {
  }

  lemma Narrow(i: int)
    requires 0 <= i < TWO_16
    ensures Uint16(i) == i
  {
  }

  lemma Wraps(x: nat)
    requires x < 2 * TWO_64
    ensures Uint64(x) == if x < TWO_64 then x else x - TWO_64
  {
  }
}
