/** The exceptions the modelled Python code can raise, and a Result type for
    operations that either return a value or raise one of them. */
module Exceptions {

  datatype Error =
    | IndexError                    // a list or string index out of range
    | AssertionError                // a failed `assert`
    | ValueError                    // `min()` of an empty collection
    | StopIteration                 // `next()` on an exhausted iterator
    | KeyError(key: string)         // a lookup of a missing dictionary key
    | FileNotFound(path: string)    // `read_text()` on a missing file
    | CommandFailed(cmd: string)    // an external command that exited non-zero
    | ParentCycle(image: string)    // an image table whose parent links loop

  datatype Option<+T> = None | Some(value: T)

  datatype Result<+T> = Ok(value: T) | Err(error: Error) {

    predicate IsFailure() {
      Err?
    }

    function PropagateFailure<U>(): Result<U>
      requires Err?
    {
      Err(error)
    }

    function Extract(): T
      requires Ok?
    {
      value
    }
  }
}
