/** Option type for values that may be absent (an optional enum, a failed
    user lookup, a source text the formatter rejects). */
module Wrappers {
  datatype Option<+T> = None | Some(value: T)
}
