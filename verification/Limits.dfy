// The widths of the firmware's integers.
module Limits {
  const UINT16_MAX: nat := 0xffff
  const UINT32_MAX: nat := 0xffff_ffff
  /** Where 32-bit counters wrap. */
  const WRAP: nat := 0x1_0000_0000
  const UINT64_MAX: nat := 0xffff_ffff_ffff_ffff

  type uint16 = n: nat | n <= UINT16_MAX
  type uint32 = n: nat | n <= UINT32_MAX
  type uint64 = n: nat | n <= UINT64_MAX
}
