/** The fixed-width C integers, as the numbers they hold. */
module MachineTypes {
  type Byte = x: int | 0 <= x < 0x100
  type U16 = x: int | 0 <= x < 0x1_0000
  type U32 = x: int | 0 <= x < 0x1_0000_0000
  type U64 = x: int | 0 <= x < 0x1_0000_0000_0000_0000
  type S16 = x: int | -0x8000 <= x < 0x8000
  type S32 = x: int | -0x8000_0000 <= x < 0x8000_0000

  /** Narrowing an integer to a signed 16-bit value. */
  function ToS16(x: int): S16 {
    (x + 0x8000) % 0x1_0000 - 0x8000
  }

  /** A signed 32-bit result in two's complement. */
  function ToS32(x: int): S32 {
    (x + 0x8000_0000) % 0x1_0000_0000 - 0x8000_0000
  }

  /** The bit pattern of a signed 16-bit value, read as unsigned. */
  function ToU16(x: int): U16 {
    x % 0x1_0000
  }
}
