/** Shared value types: an optional value and the source's fixed integer widths. */
module Wrappers {

  datatype Option<+T> = None | Some(value: T)

  type u8 = x: int | 0 <= x < 0x100
  type u16 = x: int | 0 <= x < 0x1_0000
  type u32 = x: int | 0 <= x < 0x1_0000_0000

  /** Unsigned 32-bit subtraction: what `a - b` is on two uint32_t. */
  function Sub32(a: u32, b: u32): u32 {
    (a - b) % 0x1_0000_0000
  }
}
