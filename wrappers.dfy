/** The optional value used for SQL NULL and for Python's `None`. */
module Wrappers {

  datatype Option<+T> = None | Some(value: T)
}
