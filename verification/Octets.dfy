/** Octets, as every component here reads and writes them. */
module Octets {
  type Byte = x: int | 0 <= x < 256
}
