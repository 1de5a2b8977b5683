/** Bytes and strings of bytes. */
module Octets {
  newtype byte = x: int | 0 <= x < 256
  type Bytes = seq<byte>
}
