/** What several modules return: something, or nothing. */
module Wrappers {
  datatype Option<T> = None | Some(value: T)
}
