/** The fixed-width integers of the C code, as ranges: wrap-around and truncation are written out where they happen. */
module Integers {
  type u8 = x: nat | x < 0x100
  type u16 = x: nat | x < 0x1_0000
  type u32 = x: nat | x < 0x1_0000_0000
  type i16 = x: int | -0x8000 <= x < 0x8000

  const INT32_MAX: nat := 0x7fff_ffff
  const UINT32_MAX: u32 := 0xffff_ffff
}
