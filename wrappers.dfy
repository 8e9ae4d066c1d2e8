/** Wrappers: the nil-or-value shape of Go's error results. */
module Wrappers {
  datatype Option<+T> = None | Some(value: T)
}
