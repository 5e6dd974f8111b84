/** An optional value: stands for a value that the source code may hold as `null` or `undefined`. */
module Wrappers {

  datatype Option<+T> = None | Some(value: T)
}
