/** Option, for "there may be no such thing" results (a regular-expression search
    that finds nothing, an array index past the end). */
module Wrappers {

  datatype Option<+T> = None | Some(value: T)
}
