/** Octets, and the optional value that stands for a pointer that may be NULL. */
module Bytes {

  type byte = x: int | 0 <= x < 256

  datatype Option<+T> = None | Some(value: T)
}
