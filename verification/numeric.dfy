/** Fixed-width integers of the program, written out over Dafny's unbounded `int`. */
module Numeric {
  import opened Wrappers

  const U64_MAX: int := 0xFFFF_FFFF_FFFF_FFFF
  const I64_MIN: int := -0x8000_0000_0000_0000
  const I64_MAX: int := 0x7FFF_FFFF_FFFF_FFFF

  type u64 = x: int | 0 <= x <= U64_MAX
  type i64 = x: int | I64_MIN <= x <= I64_MAX

  /** Multiplication of two u64 values as the program is built (overflow checks on):
      the product when it fits, `None` where the program would panic instead of wrapping. */
  function CheckedMul(a: u64, b: u64): (r: Option<u64>)
  {
    if a * b <= U64_MAX then Some(a * b) else None
  }
}
