/** The optional value used throughout the model where the source returns
    `null`, `undefined` or a falsy "no match". */
module Wrappers {

  datatype Option<+T> = None | Some(value: T)
}
