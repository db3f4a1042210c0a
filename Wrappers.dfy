/** The outcome of a Python expression that either yields a value or raises. */
module Wrappers {
  datatype Option<+T> = None | Some(value: T)
}
