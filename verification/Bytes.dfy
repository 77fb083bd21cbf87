/** Unsigned bytes, and the conversions between them and signed ones. */
module Bytes {
  type byte = x: int | 0 <= x < 256

  /** int8_t of a byte. */
  function Signed(b: byte): int {
    if b < 128 then b else b - 256
  }

  /** uint8_t of any integer. */
  function Truncated(x: int): byte {
    x % 256
  }
}
