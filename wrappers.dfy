/** A value that may be missing: a cell pandas would hold as NaN. */
module Wrappers {
  datatype Option<+T> = None | Some(value: T)
}
