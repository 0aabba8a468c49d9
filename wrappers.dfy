/** The optional-value datatype used for the Java library calls that may fail. */
module Wrappers {

  datatype Option<+T> = None | Some(value: T)
}
