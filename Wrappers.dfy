/** The optional value used wherever the source falls back on `undefined`. */
module Wrappers {
  datatype Option<+T> = None | Some(value: T)
}
