/** Failure-compatible wrappers shared by the object pool and the array
    container: an optional reference (a C pointer that may be NULL) and the
    outcome of an operation that may stop at one of the runtime's error
    boundaries. */
module Common {

  /** A C pointer that may be NULL. */
  datatype Option<+T> = None | Some(value: T)

  /** The five kinds of failure the model distinguishes.
      - UsageError: an `fassert` with a message, recoverable by the interpreter;
      - OutOfMemory: the pool is still exhausted after one collection;
      - AssertionFailed: an internal `ASSERT` (a defect, hard abort);
      - FreeListOverflow: a push beyond the 1024 entries of `next_free`,
        an out-of-bounds write in C;
      - NullDereference: reading through a NULL pointer. */
  datatype Failure =
    | UsageError(message: string)
    | OutOfMemory
    | AssertionFailed(condition: string)
    | FreeListOverflow
    | NullDereference

  datatype Result<+T> = Ok(value: T) | Err(error: Failure) {
    predicate IsFailure() {
      Err?
    }

    function PropagateFailure<U>(): Result<U>
      requires Err?
    {
      Err(error)
    }

    function Extract(): T
      requires Ok?
    {
      value
    }
  }
}
