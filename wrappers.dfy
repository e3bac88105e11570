/** A value that may be absent: a missing file, an undefined average. */
module Wrappers {
  datatype Option<T> = None | Some(value: T)
}
