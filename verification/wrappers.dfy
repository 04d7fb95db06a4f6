/** Optional values: `None` stands for the source's `null`, for a pattern
    that did not match, and for an operation that threw. */
module Wrappers {

  datatype Option<+T> = None | Some(value: T)
}
