/** Types shared by every component: optional values and bytes. */
module Prelude {
  datatype Option<+T> = None | Some(value: T)

  /** A machine byte (`u8`). */
  type Byte = b: int | 0 <= b < 0x100
  type Bytes = seq<Byte>
}
