/** Optional values: the model of a TypeScript `T | null` result or an optional field. */
module Wrappers {

  datatype Option<+T> = None | Some(value: T)
}
