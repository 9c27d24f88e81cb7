/** Bytes, for the parts that work on binary messages. */
module Bytes {
  type byte = x: int | 0 <= x < 256
  type bytes = seq<byte>
}
