/** The optional value used for the label table, which may not be loaded. */
module Wrappers {
  datatype Option<+T> = None | Some(value: T)
}
