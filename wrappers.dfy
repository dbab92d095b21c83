/** Small helper datatypes shared by the model. */
module Wrappers {
  /** Ruby's `nil`-or-value. */
  datatype Option<+T> = None | Some(value: T)
}
