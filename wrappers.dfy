/** The Option type used wherever the modelled code can fail: a division by
    zero, a string that is not a number, a token list too short to read. */
module Wrappers {
  datatype Option<+T> = None | Some(value: T)
}
