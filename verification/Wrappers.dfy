/** A value that may be missing: NULL in the source. */
module Wrappers {
  datatype Option<T> = None | Some(value: T)
}
