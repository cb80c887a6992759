/** A value that may be absent: the program's null pointers and failure returns. */
module Wrappers {
  datatype Option<+T> = None | Some(value: T)
}
