/** Option, the shared "value or nothing" wrapper (Python's None). */
module Wrappers {

  datatype Option<+T> = None | Some(value: T)
}
