/** Optional values: a JSON field, a query parameter or a lookup that may be absent. */
module Wrappers {

  datatype Option<T> = None | Some(value: T)
}
