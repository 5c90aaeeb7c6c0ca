/** Bytes and byte strings. */
module Octets {
  type Byte = b: int | 0 <= b < 256
  type Bytes = seq<Byte>
}
