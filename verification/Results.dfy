/** The optional and fallible values shared by every module. */
module Results {

  datatype Option<+T> = None | Some(value: T) {
    function GetOr(default: T): T {
      if Some? then value else default
    }
  }

  /** The store's error values that a caller can observe. `Failed` stands for any other failure. */
  datatype StoreError = KeyNotFound | EmptyKey | Conflict | Failed

  datatype Result<+T> = Ok(value: T) | Err(error: StoreError) {
    predicate IsFailure() {
      Err?
    }

    function PropagateFailure<U>(): Result<U>
      requires Err?
    {
      Err(error)
    }

    function Extract(): T
      requires Ok?
    {
      value
    }
  }

  /** The answer of an external command: its output, or nothing but an error. */
  datatype Outcome<+T> = Done(value: T) | Refused
}
