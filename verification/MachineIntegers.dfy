/** The widths of the integers and digit strings whose bounds matter. */
module MachineIntegers {
  const U32_SIZE := 0x1_0000_0000
  const U64_SIZE := 0x1_0000_0000_0000_0000

  type U64 = n: nat | n < U64_SIZE

  /** How many numbers `w` digits can tell apart. */
  function Capacity(base: nat, w: nat): nat {
    if w == 0 then 1 else base * Capacity(base, w - 1)
  }
}
