/** The optional value used where the Go code has a value-or-error pair. */
module Wrappers {
  datatype Option<+T> = None | Some(value: T)
}
