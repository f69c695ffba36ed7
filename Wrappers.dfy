/** The optional value used wherever the source returns `null` or `undefined` instead of a value. */
module Wrappers {

  datatype Option<+T> = None | Some(value: T)

}
