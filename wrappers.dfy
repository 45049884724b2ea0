/** The optional value used for "no move", "no piece" and failed parses. */
module Wrappers {
  datatype Option<T> = None | Some(value: T)
}
