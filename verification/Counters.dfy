/** 64-bit limits and the saturating statistics counters (increment in inkling_project.c). */
module Counters {
  const UINT32_MAX: nat := 0xFFFF_FFFF
  const UINT64_MAX: nat := 0xFFFF_FFFF_FFFF_FFFF
  const SIZE_MAX: nat := 0xFFFF_FFFF_FFFF_FFFF
  const PTRDIFF_MAX: nat := 0x7FFF_FFFF_FFFF_FFFF
  const INT64_MAX: nat := 0x7FFF_FFFF_FFFF_FFFF

  /** The limits are those of 32 and 64 bits. */
  lemma Limits()
    ensures UINT32_MAX + 1 == 65536 * 65536 && UINT64_MAX == SIZE_MAX
    ensures UINT64_MAX + 1 == (UINT32_MAX + 1) * (UINT32_MAX + 1)
    ensures PTRDIFF_MAX == INT64_MAX && UINT64_MAX == 2 * INT64_MAX + 1
  {
  }

  /** A counter that stops at its maximum. */
  function Saturate(n: nat): nat {
    if n > UINT64_MAX then UINT64_MAX else n
  }
}
