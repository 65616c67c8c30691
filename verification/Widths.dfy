/** Widths of the source's integers and bytes. */
module Widths {
  const U32_MAX: nat := 0xFFFF_FFFF
  const U64_MAX: nat := 0xFFFF_FFFF_FFFF_FFFF
  const I64_MAX: nat := 0x7FFF_FFFF_FFFF_FFFF

  type Byte = b: int | 0 <= b < 256
}
