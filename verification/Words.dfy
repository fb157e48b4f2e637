/** The machine words of the driver (a 32-bit ARM target: unsigned int and unsigned long are both 32 bits wide). */
module Words {
  type byte = x: int | 0 <= x < 0x100
  type u16 = x: int | 0 <= x < 0x1_0000
  type u32 = x: int | 0 <= x < 0x1_0000_0000

  /** Truncation to unsigned char. */
  function U8(x: int): byte { x % 0x100 }

  /** Truncation to unsigned int / unsigned long. */
  function U32(x: int): u32 { x % 0x1_0000_0000 }

  /** Reinterpretation of an unsigned word as a signed int. */
  function S32(x: u32): int { if x < 0x8000_0000 then x else x - 0x1_0000_0000 }

  /** The byte at address k of a little-endian array of 16-bit words. */
  function ByteOf(words: seq<u16>, k: nat): byte
    requires k < 2 * |words|
  {
    if k % 2 == 0 then words[k / 2] % 0x100 else words[k / 2] / 0x100
  }

  /** A run of 16-bit words seen through an unsigned char pointer. */
  function BytesOf(words: seq<u16>): (bytes: seq<byte>)
    ensures |bytes| == 2 * |words|
  {
    seq(2 * |words|, k requires 0 <= k < 2 * |words| => ByteOf(words, k))
  }
}
