/** The optional value used for the model's panics and missing entries. */
module Wrappers {

  datatype Option<+T> = None | Some(value: T)
}
