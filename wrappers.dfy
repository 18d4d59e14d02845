/** The optional value used wherever the modelled code has "no value" (a missing last
    message, a parse that throws, JavaScript's `undefined`). */
module Wrappers {

  datatype Option<+T> = None | Some(value: T)
}
