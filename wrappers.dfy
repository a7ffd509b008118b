/** Return values and the exceptions the application raises, as data. */
module Wrappers {

  datatype Option<T> = None | Some(value: T)

  /** SQLite's result code for a violated constraint (NOT NULL, UNIQUE, PRIMARY KEY). */
  const SQLITE_CONSTRAINT: int := 19

  /** The Java exceptions the modelled code throws or catches. */
  datatype Failure =
    | SqlFailure(code: int, message: string)   // java.sql.SQLException and its vendor code
    | IllegalState(message: string)            // IllegalStateException
    | IllegalArgument(message: string)         // IllegalArgumentException
    | NumberFormat(input: string)              // NumberFormatException from Integer.parseInt
    | IndexOutOfBounds(index: int)             // String/array index out of range
    | NullPointer                              // NullPointerException

  datatype Result<T> = Ok(value: T) | Err(failure: Failure) {
    predicate IsFailure() { Err? }

    function PropagateFailure<U>(): Result<U>
      requires Err?
    {
      Err(failure)
    }

    function Extract(): T
      requires Ok?
    {
      value
    }
  }

  /** The outcome of a void method that may throw. */
  datatype Outcome = Done | Fails(failure: Failure)
}
