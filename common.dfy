/** Failure-compatible wrappers shared by the loader and the interpreter model. */
module Common {

  /** A value that may be absent; used where the VM passes a pointer that may be NULL. */
  datatype Option<+T> = None | Some(value: T)

  /** The outcome of an operation that can fail with an error value of type E. */
  datatype Result<+T, +E> = Ok(value: T) | Err(error: E) {

    predicate IsFailure() {
      Err?
    }

    function PropagateFailure<U>(): Result<U, E>
      requires Err?
    {
      Err(error)
    }

    function Extract(): T
      requires Ok?
    {
      value
    }
  }

  function Min(a: int, b: int): int {
    if a < b then a else b
  }
}
