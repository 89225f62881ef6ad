/** The machine word of the program: addresses and sizes are 64-bit. */
module MachineWord {
  const WORD: nat := 0x1_0000_0000_0000_0000
}
