/** Optional values: C#'s nullable references and lifted `?.` chains. */
module Wrappers {
  datatype Option<+T> = None | Some(value: T)
}
