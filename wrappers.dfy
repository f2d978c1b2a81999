/** The optional value used for nullable columns and lookups that may miss. */
module Wrappers {
  datatype Option<T> = None | Some(value: T)
}
