/** The outcome of a routine that may throw. */
module Wrappers {
  datatype Option<+T> = None | Some(value: T)
}
