/** Optional values: a JavaScript `null`, `undefined` or missing attribute is `None`. */
module Wrappers {

  datatype Option<+T> = None | Some(value: T)
}
