/** The optional value used wherever the source has `None` (a NULL column,
    a missing dictionary key, a call that raised). */
module Wrappers {

  datatype Option<+T> = None | Some(value: T)
}
