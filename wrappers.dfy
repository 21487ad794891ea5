/** Optional values: a field that may be absent from the content document. */
module Wrappers {

  datatype Option<+T> = None | Some(value: T)

}
