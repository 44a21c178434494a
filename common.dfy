/** Small shared vocabulary: an optional value and the byte type. */
module Common {

  /** The conventional Some/None datatype, used wherever the C API returns NULL or false. */
  datatype Option<+T> = None | Some(value: T)

  /** An unsigned 8-bit value (`unsigned char` in the C interface). */
  type byte = x: int | 0 <= x < 256
}
