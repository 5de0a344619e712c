/** Machine words. */
module Words {
  /** The number of values of a 32-bit unsigned. */
  const WORD := 0x1_0000_0000
}
