/** The optional value used wherever JavaScript has `undefined` or a failed match. */
module Wrappers {

  datatype Option<+T> = None | Some(value: T)
}
