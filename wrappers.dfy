/** The optional value used for JavaScript's `undefined` in the model. */
module Wrappers {

  datatype Option<+T> = None | Some(value: T)
}
