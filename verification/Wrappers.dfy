/** The conventional datatype for an answer that may be absent, and the range of a 64-bit word. */
module Wrappers {
  const UINT64: nat := 0x1_0000_0000_0000_0000

  datatype Option<+T> = None | Some(value: T)
}
