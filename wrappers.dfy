/** A value that may be missing: the model's stand-in for a NaN cell of a data frame. */
module Wrappers {

  datatype Option<+T> = None | Some(value: T)
}
