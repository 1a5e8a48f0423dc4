/** The optional value returned by a dictionary lookup that may miss. */
module Wrappers {

  datatype Option<+T> = None | Some(value: T)
}
