/** The optional value used for a file that may fail to open and for parses that may fail. */
module Wrappers {
  datatype Option<+T> = None | Some(value: T)
}
