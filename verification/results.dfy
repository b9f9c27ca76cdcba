/**
 Outcome types shared by every module of the model.

 The original program is Python: a failing step raises an exception and the
 caller sees nothing else. Here each such step returns a `Result`, and the
 exception class it would raise is kept as an `Error` value so that the
 contracts can say which failure the source produces.
 */
module Results {

  /** The exception (or process exit) a step of the source ends with. */
  datatype Error =
    | IndexError        // a list index out of range, e.g. `mc[-1]` on an empty list
    | KeyError          // a dictionary lookup of a missing key
    | ValueError        // a failed `int(...)`, an unpacking of the wrong arity, `split("")`
    | TypeError         // subscripting a value that is not a dictionary
    | AttributeError    // `.get` or `.find_all` on a value that does not have it
    | AssertionError    // a failed `assert`
    | FileNotFoundError // reading a file that does not exist
    | Unavailable       // the request itself failed (transport, timeout)
    | SystemExit(code: int)

  datatype Option<+T> = None | Some(value: T)

  datatype Result<+T> = Ok(value: T) | Err(error: Error) {
    predicate IsFailure() {
      Err?
    }

    function PropagateFailure<U>(): Result<U>
      requires Err?
    {
      Err(error)
    }

    function Extract(): T
      requires Ok?
    {
      value
    }
  }
}
