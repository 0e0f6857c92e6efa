// Machine-width integers and the little-endian fields of the packed wire structs.
module Bytes {
  type byte = x: int | 0 <= x < 0x100
  type word = x: int | 0 <= x < 0x1_0000
  type u32 = x: int | 0 <= x < 0x1_0000_0000

  /** A station MAC address. */
  type Mac = m: seq<byte> | |m| == 6 witness [0, 0, 0, 0, 0, 0]

  /** Reduction to an unsigned 32-bit register. */
  function U32(x: int): u32 {
    x % 0x1_0000_0000
  }

  /** The `static_cast<int32_t>` of a 32-bit register. */
  function Int32(x: u32): int {
    if x < 0x8000_0000 then x else x - 0x1_0000_0000
  }

  function Le16(w: word): seq<byte> {
    [w % 0x100, w / 0x100]
  }

  function Le32(x: u32): seq<byte> {
    [x % 0x100, x / 0x100 % 0x100, x / 0x1_0000 % 0x100, x / 0x100_0000]
  }

  function FromLe16(b: seq<byte>): word
    requires |b| == 2
  {
    (b[0] as int) + 0x100 * (b[1] as int)
  }

  function FromLe32(b: seq<byte>): u32
    requires |b| == 4
  {
    (b[0] as int) + 0x100 * (b[1] as int) + 0x1_0000 * (b[2] as int) + 0x100_0000 * (b[3] as int)
  }
}
