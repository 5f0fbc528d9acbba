/** The optional-value type used for parse results and for entity values that
    may be absent (Python's None). */
module Wrappers {

  datatype Option<+T> = None | Some(value: T)
}
