/** The optional value used for storage reads and parsed numbers. */
module Wrappers {

  datatype Option<+T> = None | Some(value: T)
}
