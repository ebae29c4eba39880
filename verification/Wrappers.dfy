/** A value that may be missing: the null pointer of a lookup or of an allocation. */
module Wrappers {
  datatype Option<T> = None | Some(value: T)
}
