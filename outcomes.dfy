/** Outcome wrappers shared by the lexer and the parser. */
module Outcomes {

  /** A value that may be missing; `None` stands for a failure that carries no data. */
  datatype Option<+T> = None | Some(value: T)

  /** Either a result or the error that aborted the computation. */
  datatype Result<+R, +E> = Success(value: R) | Failure(error: E)
}
