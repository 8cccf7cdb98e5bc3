/** The fixed-width unsigned numbers of the program. */
module MachineNumbers {
  type Byte = b: nat | b < 256

  const UINT32_RANGE := 0x1_0000_0000
  const UINT64_RANGE := 0x1_0000_0000_0000_0000

  type UInt64 = n: nat | n < UINT64_RANGE
}
