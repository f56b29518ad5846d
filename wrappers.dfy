/** The optional value used for the encoder's error paths. */
module Wrappers {

  /** A result that is present (`Some`) or absent because the operation raised (`None`). */
  datatype Option<+T> = None | Some(value: T)
}
