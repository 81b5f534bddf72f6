/** An optional value, for results the source marks with a special constant. */
module Wrappers {
  datatype Option<+T> = None | Some(value: T)
}
