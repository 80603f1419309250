/** The optional value used across the model: JavaScript's `undefined` and
    "no match" results are `None`. */
module Wrappers {
  datatype Option<+T> = None | Some(value: T)
}
