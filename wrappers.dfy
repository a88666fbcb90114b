/** The optional value used where the server code has `null`. */
module Wrappers {

  datatype Option<+T> = None | Some(value: T)
}
