/** Bytes, as files, request bodies and hashes hold them. */
module Bytes {
  newtype byte = x: int | 0 <= x < 256

  type Bytes = seq<byte>
}
