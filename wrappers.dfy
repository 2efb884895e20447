/** The optional value used wherever the source answers with "nothing" (a missing
    map entry, an undefined average, a movie without a score). */
module Wrappers {
  datatype Option<+T> = None | Some(value: T)
}
