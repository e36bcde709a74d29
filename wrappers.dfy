/** A value that may be absent: a dictionary key the source leaves out, an optional argument. */
module Wrappers {

  datatype Option<+T> = None | Some(value: T)
}
