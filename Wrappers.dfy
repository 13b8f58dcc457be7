/** The optional value used wherever the source reads a field that may be
    absent or calls something that may raise. */
module Wrappers {

  datatype Option<+T> = None | Some(value: T)
}
