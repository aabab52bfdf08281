/** The optional value shared by the solvers. */
module Wrappers {
  datatype Option<+T> = None | Some(value: T)
}
