/** The optional value shared by the other modules, and the byte type. */
module Wrappers {
  datatype Option<+T> = None | Some(value: T)

  newtype byte = x: int | 0 <= x < 256

  type Bytes = seq<byte>

  type Word4 = s: Bytes | |s| == 4 witness [0, 0, 0, 0]
}
