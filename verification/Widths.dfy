/** The width of the machine's unsigned integers. */
module Widths {
  const TWO_64: int := 0x1_0000_0000_0000_0000

  /** A 64 bit unsigned integer. Arithmetic that leaves it reverts in Solidity and wraps
      around in Go; both are written out where they happen. */
  type uint64 = x: int | 0 <= x < TWO_64 witness 0
}
