/** Optional values, standing for Python's `None`-or-value results and for
    operations whose exception the source catches and turns into a skip. */
module Wrappers {

  datatype Option<+T> = None | Some(value: T)
}
