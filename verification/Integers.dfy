/** 64-bit integers as the program's machine words keep them. */
module Integers {

  const MIN_INT64: int := -0x8000_0000_0000_0000
  const MAX_INT64: int := 0x7fff_ffff_ffff_ffff
  const MAX_UINT64: nat := 0xffff_ffff_ffff_ffff

  type Int64 = n: int | MIN_INT64 <= n <= MAX_INT64

  type Uint64 = n: nat | n <= MAX_UINT64

  /** The low 64 bits of a number, read as a signed word. */
  function Wrap64(n: int): (w: Int64)
    ensures MIN_INT64 <= n <= MAX_INT64 ==> w == n
  {
    (n - MIN_INT64) % 0x1_0000_0000_0000_0000 + MIN_INT64
  }
}
