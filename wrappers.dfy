/** Option, for the JavaScript values that may be `null` or absent. */
module Wrappers {
  datatype Option<+T> = None | Some(value: T)
}
