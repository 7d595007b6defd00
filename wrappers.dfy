/** The optional value used throughout the model (Java's `Optional` and nullable results). */
module Wrappers {

  datatype Option<+T> = None | Some(value: T)

}
