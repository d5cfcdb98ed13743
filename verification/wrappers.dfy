/** The optional-value type used across the model (Go's nil pointer / nil error). */
module Wrappers {

  datatype Option<+T> = None | Some(value: T)
}
