/** The optional-value datatype used for partial lookups. */
module Wrappers {

  datatype Option<+T> = None | Some(value: T)
}
