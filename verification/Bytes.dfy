/** Values shared by the models: bytes, optional values and results of operations that can fail. */
module Bytes {

  /** An unsigned char. */
  type byte = x: int | 0 <= x < 256

  /** A 64-bit machine address or size. */
  type word64 = x: int | 0 <= x < 0x1_0000_0000_0000_0000

  datatype Option<+T> = None | Some(value: T)
}
