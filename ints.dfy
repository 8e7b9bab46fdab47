/** Fixed-width unsigned integers used by the service, as in Rust. */
module Ints {
  const U32_LIMIT: int := 0x1_0000_0000
  const U64_LIMIT: int := 0x1_0000_0000_0000_0000

  newtype byte = b: int | 0 <= b < 256
  newtype u32 = x: int | 0 <= x < 0x1_0000_0000
  newtype u64 = x: int | 0 <= x < 0x1_0000_0000_0000_0000

  /** The crate targets 64-bit platforms, where `usize` has the width of `u64`. */
  type usize = u64
}
