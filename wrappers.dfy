/** The optional value that the store's lookups return (java.util.Optional). */
module Wrappers {

  datatype Option<+T> = None | Some(value: T)
}
