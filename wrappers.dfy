/** Optional values, used for pandas' missing values (NaT) and for parse failures. */
module Wrappers {
  datatype Option<+T> = None | Some(value: T)
}
