/** The optional-value datatype used wherever the source returns `null`,
    `undefined` or `-1` for "nothing found". */
module Wrappers {

  datatype Option<+T> = None | Some(value: T)
}
