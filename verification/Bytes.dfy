/** The unit of storage: `char` and `uint8_t` in the program. */
module Bytes {
  newtype byte = x: int | 0 <= x < 256
}
