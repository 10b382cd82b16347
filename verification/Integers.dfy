/** The source's fixed-width integers. */
module Integers {

  /** Truncation to 32 bits, two's complement. */
  function WrapInt32(n: int): int {
    (n + 0x8000_0000) % 0x1_0000_0000 - 0x8000_0000
  }

  function WrapUint32(n: int): int {
    n % 0x1_0000_0000
  }

  predicate IsInt32(n: int) {
    -0x8000_0000 <= n < 0x8000_0000
  }
}
