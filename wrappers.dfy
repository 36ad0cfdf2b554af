/** An optional value, as used for handles that may be empty. */
module Wrappers {
  datatype Option<T> = None | Some(value: T)
}
