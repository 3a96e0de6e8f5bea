/** The optional-value datatype used for nullable fields (`T | null` in the
    game's records) and for operations that can fail. */
module Wrappers {

  datatype Option<+T> = None | Some(value: T)
}
