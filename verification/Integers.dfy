/** Go's sized integers, as ranges of the integers, and their conversions. */
module Integers {
  const TWO63: int := 0x8000_0000_0000_0000
  const TWO64: int := 0x1_0000_0000_0000_0000
  const MAX_UINT64: int := 0xFFFF_FFFF_FFFF_FFFF

  type Byte = x: int | 0 <= x < 256
  type Int64 = x: int | -0x8000_0000_0000_0000 <= x < 0x8000_0000_0000_0000
  type Uint64 = x: int | 0 <= x < 0x1_0000_0000_0000_0000

  predicate IsInt64(n: int) { -TWO63 <= n < TWO63 }
  predicate IsUint64(n: int) { 0 <= n < TWO64 }

  function ToInt64(u: Uint64): Int64 { if u < TWO63 then u else u - TWO64 }
  function ToUint64(i: Int64): Uint64 { if i >= 0 then i else i + TWO64 }

  lemma {:induction false} TimesMonotone(x: nat, y: nat, p: nat)
    requires x <= y
    ensures x * p <= y * p
    decreases y - x
  {
    if x < y {
      TimesMonotone(x, y - 1, p);
      assert y * p == (y - 1) * p + p;
    }
  }
}
