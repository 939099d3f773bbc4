/** Bytes and the limits of the integer types of the source, on a 64-bit machine. */
module Machine {
  type Byte = bv8

  const INT_MAX: int := 0x7FFF_FFFF
  const INT_MIN: int := -0x8000_0000
  const SIZE_MAX: nat := 0xFFFF_FFFF_FFFF_FFFF
  // the largest size of a vector of bytes; a larger one throws
  const VECTOR_MAX: nat := 0x7FFF_FFFF_FFFF_FFFF

  /** An `int` where a `size_t` is expected. */
  function ToSize(n: int): (size: nat)
    requires INT_MIN <= n <= INT_MAX
    ensures n >= 0 ==> size == n
    ensures n < 0 ==> VECTOR_MAX < size <= SIZE_MAX
    ensures (size - n) % 0x1_0000_0000_0000_0000 == 0
  {
    if n >= 0 then n else SIZE_MAX + 1 + n
  }

  function Min(a: nat, b: nat): nat { if a < b then a else b }
  function Max(a: int, b: int): int { if a > b then a else b }
}
