/** The widths of the kernel's integers. */
module Width {
  const TWO27 := 0x800_0000
  const TWO28 := 0x1000_0000
  const TWO32 := 0x1_0000_0000
  const TWO63 := 0x8000_0000_0000_0000
  const TWO64 := 0x1_0000_0000_0000_0000
}
