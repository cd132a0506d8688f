/** Optional values: the model's stand-in for Python's `None` and for the
    exceptions (`IndexError`, `ValueError`) that a helper raises on bad input. */
module Wrappers {
  datatype Option<+T> = None | Some(value: T)
}
