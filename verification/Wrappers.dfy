/** Option stands in for a reference that may be null. */
module Wrappers {
  datatype Option<+T> = None | Some(value: T)
}
