/** Optional values, standing in for Java's nullable references and for
    operations that fail with an exception. */
module Wrappers {
  datatype Option<+T> = None | Some(value: T)
}
