/** A value that may be missing: the result of a lookup, or of code that may raise. */
module Wrappers {

  datatype Option<+T> = None | Some(value: T)
}
