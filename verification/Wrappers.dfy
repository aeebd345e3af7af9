/** A value that may be missing: a nil pointer, a nil error or a raised exception. */
module Wrappers {
  datatype Option<+T> = None | Some(value: T)
}
