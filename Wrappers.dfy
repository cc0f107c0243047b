/** The optional value used for Kotlin's nullable fields. */
module Wrappers {

  datatype Option<+T> = None | Some(value: T)
}
