/** The optional value used for nullable fields of the app state. */
module Wrappers {

  /** `None` stands for JavaScript's `null` (and `undefined`). */
  datatype Option<+T> = None | Some(value: T)
}
