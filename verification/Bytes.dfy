/** Octets, as the C sources' unsigned char. */
module Bytes {
  type byte = x: int | 0 <= x < 256
}
