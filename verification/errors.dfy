/** Failure-compatible datatypes used across the model.

    Python raises exceptions; the model returns a `Result` whose failure
    carries the exception class that the Python code would raise.  Only
    the class is kept: messages are not part of any promise made here.
 */
module Errors {

  /** The Python exception classes the modelled code can raise. */
  datatype PyError =
    | ValueError
    | AssertionError
    | KeyError
    | IndexError
    | TypeError
    | AttributeError
    | UnboundLocalError
    | OSError
    | OverflowError
    | GenericException   // a bare `raise Exception(...)`

  /** `None` or a present value. */
  datatype Option<+T> = None | Some(value: T) {
    predicate IsFailure() { None? }

    function PropagateFailure<U>(): Option<U>
      requires None?
    {
      None
    }

    function Extract(): T
      requires Some?
    {
      value
    }
  }

  /** The outcome of a Python call: a value, or the exception it raises. */
  datatype Result<+T> = Ok(value: T) | Err(error: PyError) {
    predicate IsFailure() { Err? }

    function PropagateFailure<U>(): Result<U>
      requires Err?
    {
      Err(error)
    }

    function Extract(): T
      requires Ok?
    {
      value
    }
  }

  /** `assert cond` in Python: fails with AssertionError. */
  function Need(cond: bool): (r: Result<()>)
    ensures r.Ok? <==> cond
    ensures r.Err? ==> r.error == AssertionError
  {
    if cond then Ok(()) else Err(AssertionError)
  }

  /** A check that fails with a given exception class. */
  function Check(cond: bool, e: PyError): (r: Result<()>)
    ensures r.Ok? <==> cond
    ensures r.Err? ==> r.error == e
  {
    if cond then Ok(()) else Err(e)
  }
}
