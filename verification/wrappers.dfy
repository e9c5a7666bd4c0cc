/** The optional value used wherever the source may produce `null` or `undefined`. */
module Wrappers {
  datatype Option<+T> = None | Some(value: T)
}
