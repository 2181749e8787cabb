/** An optional value, in place of Go's nil. */
module Wrappers {
  datatype Option<+T> = None | Some(value: T)
}
