/** Optional values, used where the source leaves a field indeterminate. */
module Wrappers {

  datatype Option<+T> = None | Some(value: T)

}
