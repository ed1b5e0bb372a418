/** Optional values: Java's `null` results (a rejected URI, a failed `listFiles`). */
module Wrappers {
  datatype Option<+T> = None | Some(value: T)
}
