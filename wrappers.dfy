/** The optional value used wherever the source returns `string | null` or
    `T | undefined`. */
module Wrappers {

  datatype Option<+T> = None | Some(value: T)
}
