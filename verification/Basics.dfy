/** Shared by all models. */
module Basics {
  const TWO_TO_64: nat := 0x1_0000_0000_0000_0000

  /** An optional value, for the source's nil results. */
  datatype Option<+T> = None | Some(value: T)
}
