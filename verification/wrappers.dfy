/** Go's nil-able pointers and errors, as values. */
module Wrappers {
  datatype Option<+T> = None | Some(value: T)
}
