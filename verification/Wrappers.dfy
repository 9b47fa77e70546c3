/** A value that may be missing: a null result, an index that never matches, an unset field. */
module Wrappers {
  datatype Option<+T> = None | Some(value: T)
}
