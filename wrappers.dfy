/** The optional value that stands for Kotlin's nullable results. */
module Wrappers {

  datatype Option<+T> = None | Some(value: T)
}
