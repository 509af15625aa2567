/** The Option datatype used for "nothing handed on" and "no event". */
module Wrappers {
  datatype Option<+T> = None | Some(value: T)
}
