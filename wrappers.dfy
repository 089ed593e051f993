/** The optional value used wherever the source may get `null` or `undefined` back. */
module Wrappers {

  datatype Option<+T> = None | Some(value: T)
}
