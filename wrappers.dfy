/** Option type used for the lookups of the coverage model. */
module Wrappers {
  datatype Option<+T> = None | Some(value: T)
}
