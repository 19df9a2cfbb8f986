/** The optional value used for the holes of the namespace list and for the
    element namespace before the first start tag. */
module Wrappers {
  datatype Option<+T> = None | Some(value: T)
}
