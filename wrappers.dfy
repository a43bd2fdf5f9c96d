/** Java's nullable references, made explicit. */
module Wrappers {

  /** A value that may be absent (`null` in Java). */
  datatype Option<+T> = None | Some(value: T)
}
