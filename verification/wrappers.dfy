/** The optional value used where the source returns null or reports nothing. */
module Wrappers {

  datatype Option<+T> = None | Some(value: T)
}
