/** The optional value used throughout the model: `T | undefined` and `T | null` of the source. */
module Wrappers {

  datatype Option<+T> = None | Some(value: T)
}
