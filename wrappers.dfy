/** The optional value used for `T | null` results and for optional settings. */
module Wrappers {
  datatype Option<+T> = None | Some(value: T)
}
