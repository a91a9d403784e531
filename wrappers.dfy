/** The Option type used for values the source may find missing (None in Python). */
module Wrappers {
  datatype Option<+T> = None | Some(value: T)
}
