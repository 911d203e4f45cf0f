/** The optional value used for JavaScript's `undefined` and for a parse that returns null. */
module Wrappers {

  datatype Option<+T> = None | Some(value: T)
}
