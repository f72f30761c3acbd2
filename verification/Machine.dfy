/** The 32-bit unsigned arithmetic of the kernel's C code. */
module Machine {
  const WORD_LIMIT: nat := 0x1_0000_0000

  type Byte = x: int | 0 <= x < 256

  type U32 = x: int | 0 <= x < WORD_LIMIT

  /** `a + b` on uint32_t: wraps modulo 2^32. */
  function Add32(a: U32, b: U32): U32 {
    (a + b) % WORD_LIMIT
  }

  /** `a - b` on uint32_t: wraps modulo 2^32. */
  function Sub32(a: U32, b: U32): U32 {
    (a - b) % WORD_LIMIT
  }
}
