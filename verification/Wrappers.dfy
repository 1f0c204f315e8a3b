/** Option and result types, and integer ranges, shared by the models. */
module Wrappers {
  const U32_RANGE: nat := 0x1_0000_0000
  const U64_RANGE: nat := 0x1_0000_0000_0000_0000

  datatype Option<+T> = None | Some(value: T)

  /** A C++ call that returns a value or throws. */
  datatype Result<+T> = Ok(value: T) | Err
}
