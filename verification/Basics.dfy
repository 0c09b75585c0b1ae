/** The option type shared by the other modules. */
module Basics {
  datatype Option<+T> = None | Some(value: T)

  /** One more than the largest 32-bit unsigned value. */
  const U32 := 0x1_0000_0000
}
