/** Failure-compatible result types shared by every decoder of the model. */
module Wrappers {

  datatype Option<+T> = None | Some(value: T)

  /** The exceptions the JavaScript code can raise (or, for StackOverflow,
      that the engine raises when recursion is too deep). */
  datatype Fault =
    | Underrun          // a cursor read, skip, seek or sub outside its buffer
    | TypeError         // a property of `undefined` was read or iterated
    | AssertionFailed   // a Node `assert` did not hold
    | StackOverflow     // the engine ran out of call depth
    | IsDirectory       // a file was written over a directory (EISDIR)

  datatype Result<+T> = Ok(value: T) | Err(fault: Fault) {
    predicate IsFailure() { Err? }

    function PropagateFailure<U>(): Result<U>
      requires Err?
    {
      Err(fault)
    }

    function Extract(): T
      requires Ok?
    {
      value
    }
  }
}
