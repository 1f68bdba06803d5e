/** The optional value used throughout the model (`undefined`/`null` in the source). */
module Wrappers {
  datatype Option<+T> = None | Some(value: T)
}
