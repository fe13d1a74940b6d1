/** A value that may be missing: the sources' `Option`. */
module Wrappers {
  datatype Option<+T> = None | Some(value: T)
}
