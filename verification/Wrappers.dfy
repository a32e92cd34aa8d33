/** A value that may be absent: a missing key, a refused input, a call that failed. */
module Wrappers {
  datatype Option<+T> = None | Some(value: T)
}
