/** The optional value used for lookups that may find nothing (JavaScript `undefined`). */
module Wrappers {
  datatype Option<+T> = None | Some(value: T)
}
