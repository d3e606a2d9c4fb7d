/** A value that may be missing: NULL results, and places that may be empty. */
module Wrappers {
  datatype Option<+T> = None | Some(value: T)
}
