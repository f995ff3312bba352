/** The optional-value datatype used for Python calls that may raise. */
module Wrappers {
  datatype Option<+T> = None | Some(value: T)
}
