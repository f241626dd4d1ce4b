/** Outcomes shared by every module: the exceptions the framework raises
    (grace/exceptions.py) together with the ones raised by Python itself and
    by the mapping library underneath the active-record layer, and the
    Option/Result wrappers that stand for Python's `None` and `raise`. */
module Errors {

  /** Python's `Optional[T]`: `None` or a value. */
  datatype Option<+T> = None | Some(value: T)

  /** Every exception an operation of the model can end with. */
  datatype Error =
    | GeneratorError(message: string)       // grace.exceptions.GeneratorError
    | ValidationError(message: string)      // grace.exceptions.ValidationError
    | RuntimeError(message: string)
    | AttributeError(message: string)
    | ValueError(message: string)
    | TypeError(message: string)
    | NotImplementedError
    | NoResultFound                         // `one()` on an empty result
    | MultipleResultsFound                  // `one()` on two or more rows
    | InvalidRequestError(message: string)  // deleting a transient or saving a deleted instance
    | IntegrityError                        // a stored key again, or NULL in a NOT NULL column
    | StaleDataError                        // updating a row that is no longer stored
    | OverflowError                         // an integer beyond SQLite's 64 bits

  /** A computation that returns a value or raises an `Error`; usable with `:-`. */
  datatype Result<+T> = Ok(value: T) | Err(error: Error) {

    predicate IsFailure() {
      Err?
    }

    function PropagateFailure<U>(): Result<U>
      requires Err?
    {
      Err(error)
    }

    function Extract(): T
      requires Ok?
    {
      value
    }
  }
}
