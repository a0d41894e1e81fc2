/** The optional result of an operation that may refuse or find nothing. */
module Wrappers {
  datatype Option<T> = None | Some(value: T)
}
