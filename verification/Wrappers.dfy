/** The optional value shared by the other modules. */
module Wrappers {

  datatype Option<+T> = None | Some(value: T)

  // Bytes are kept as a subset of the integers: no bitwise operation is needed.
  type byte = x: int | 0 <= x < 256 witness 0
}
