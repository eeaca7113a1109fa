/** The Some/None datatype used for values the source may find missing:
    a JavaScript `undefined` field, a Python `None`, or a parse that failed. */
module Wrappers {

  datatype Option<+T> = None | Some(value: T)
}
