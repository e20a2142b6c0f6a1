/** The Some/None datatype used wherever the converter either produces a value
    or gives up (an unmatched column, an out-of-range vertex index). */
module Wrappers {

  datatype Option<+T> = None | Some(value: T)
}
