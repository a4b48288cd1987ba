/** The optional value used by the whole model where the source has a null pointer or a failed lookup. */
module Wrappers {
  datatype Option<+T> = None | Some(value: T)
}
