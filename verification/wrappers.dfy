/** The Option datatype used where a lookup can come back empty. */
module Wrappers {

  datatype Option<+T> = None | Some(value: T)
}
