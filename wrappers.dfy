/** Option and Result values shared by every module of the model. A `Fatal` result stands
  * for the simulator's `fatal()`, `panic()` or a failed `assert()`: the run stops there. */
module Wrappers {
  datatype Option<T> = None | Some(value: T)

  datatype Result<T> = Ok(value: T) | Fatal(reason: string)
  {
    /** A fatal result stops the steps that follow it (`:-`). */
    predicate IsFailure()
    {
      Fatal?
    }

    function PropagateFailure<U>(): Result<U>
      requires Fatal?
    {
      Fatal(reason)
    }

    function Extract(): T
      requires Ok?
    {
      value
    }
  }
}
