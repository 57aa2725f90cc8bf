/** A result that may be absent: the source's -1, NULL or a step not enabled. */
module Wrappers {
  datatype Option<+T> = None | Some(value: T)
}
