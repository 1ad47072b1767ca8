/** Bytes, as Python's `bytes` objects hold them. */
module Bytes {
  type Byte = b: int | 0 <= b < 256
}
