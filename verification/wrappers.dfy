/** The optional-value datatype used where the source silently ignores an input. */
module Wrappers {

  datatype Option<+T> = None | Some(value: T)
}
