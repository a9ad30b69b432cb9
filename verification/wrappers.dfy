/** Result types shared by the model. */
module Wrappers {

  datatype Option<+T> = None | Some(value: T)

  datatype Result<+T, +E> = Success(value: T) | Failure(error: E)

  /** How a call of the operator ends: nil, the muted race error, an error with a code of the
      catalogue, an error without one, or a panic on its way up. */
  datatype Outcome = Ok | Expected | Coded | Unknown | Panicked

  /** Any end but nil. */
  type Trouble = o: Outcome | o != Ok witness Coded
}
