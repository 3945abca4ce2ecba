/** The optional value every lookup of the scanner may come back without (Java's null). */
module Wrappers {
  datatype Option<T> = None | Some(value: T)
}
