/** The optional value used where the scripts raise or return nothing. */
module Wrappers {

  datatype Option<+T> = None | Some(value: T)
}
