/** Values that may be absent: Python's `None`, or a lookup that finds nothing. */
module Wrappers {
  datatype Option<+T> = None | Some(value: T)

  type pos = n: nat | n > 0 witness 1
}
