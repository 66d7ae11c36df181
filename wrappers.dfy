/** The optional value used for absent arguments and rejected input. */
module Wrappers {
  datatype Option<+T> = None | Some(value: T)
}
