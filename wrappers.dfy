/** A value that may be absent; used where the program raises (an index out of range) instead of returning. */
module Wrappers {

  datatype Option<+T> = None | Some(value: T)
}
