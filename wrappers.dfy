/** The Option datatype: `None` stands for the source's `None` (a matrix whose
    `data` was never allocated) and for an index outside the array. */
module Wrappers {

  datatype Option<+T> = None | Some(value: T)
}
