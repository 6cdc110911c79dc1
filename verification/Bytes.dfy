/** Bytes as numbers, where only their order and values matter. */
module Bytes {

  newtype Byte = x: int | 0 <= x < 256
}
