/** Outcomes of the engine's operations.
    The source raises two families of failure: its own reported error
    (`EnigmaException`), which some callers catch, and Java runtime faults
    (a null dereference, an index out of range, an array of negative size,
    a division by zero), which nobody catches and which abort the whole
    run. */
module Outcomes {

  datatype Fault = Reported | Crash

  datatype Result<+T> = Ok(value: T) | Err(fault: Fault) {
    predicate IsFailure() { Err? }

    function PropagateFailure<U>(): Result<U>
      requires Err?
    {
      Err(fault)
    }

    function Extract(): T
      requires Ok?
    {
      value
    }
  }
}
