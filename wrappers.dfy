/** The optional value used wherever the grid returns `null`/`undefined`
    in place of a value (an inapplicable filter, a missing column). */
module Wrappers {

  datatype Option<+T> = None | Some(value: T)
}
