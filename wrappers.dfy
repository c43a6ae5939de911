/** Optional values: the models use `None` for a JSON field that is missing
    or that JavaScript coerces to NaN. */
module Wrappers {
  datatype Option<+T> = None | Some(value: T)
}
