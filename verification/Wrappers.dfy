/** An optional value: a value, or none. */
module Wrappers {
  datatype Option<+T> = None | Some(value: T)
}
