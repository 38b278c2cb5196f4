/** The optional-value datatype used for absent inputs (a missing file, a missing request field). */
module Wrappers {

  datatype Option<+T> = None | Some(value: T)
}
