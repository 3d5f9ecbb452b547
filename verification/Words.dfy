/** The number of values of a machine word. */
module Words {
  const U16: nat := 0x1_0000
  const U32: nat := 0x1_0000_0000
}
