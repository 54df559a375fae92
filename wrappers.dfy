/** The optional value used where the original code passes or returns null. */
module Wrappers {
  datatype Option<+T> = None | Some(value: T)
}
