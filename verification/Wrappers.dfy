/** Option and Result, used for nullable columns, absent rows and error returns. */
module Wrappers {
  datatype Option<+T> = None | Some(value: T)

  /** Err stands for every error: the callers only propagate it. */
  datatype Result<+T> = Ok(value: T) | Err {
    predicate IsFailure() {
      Err?
    }

    function PropagateFailure<U>(): Result<U>
      requires Err?
    {
      Err
    }

    function Extract(): T
      requires Ok?
    {
      value
    }
  }

  function Max(a: int, b: int): int {
    if a < b then b else a
  }

  function Min(a: int, b: int): int {
    if b < a then b else a
  }
}
