/** Unsigned 8-bit values: file contents and `Uint8Array` audio samples. */
module Bytes {

  newtype byte = x: int | 0 <= x < 256
}
