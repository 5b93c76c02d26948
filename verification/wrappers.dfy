/** The optional value used where the source has a nil pointer or a comma-ok result. */
module Wrappers {
  datatype Option<+T> = None | Some(value: T)
}
