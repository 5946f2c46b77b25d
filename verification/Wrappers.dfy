/** Shared by all components. */
module Wrappers {
  datatype Option<+T> = None | Some(value: T)

  type pos = n: nat | n > 0 witness 1
}
