/** Failure-compatible values for the source's nullable results and thrown errors. */
module Wrappers {

  datatype Option<+T> = None | Some(value: T)

  datatype Result<+T> = Ok(value: T) | Err(code: string) {
    predicate IsFailure() { Err? }

    function PropagateFailure<U>(): Result<U>
      requires Err?
    {
      Err(code)
    }

    function Extract(): T
      requires Ok?
    {
      value
    }
  }

  /** A check that may throw, with nothing to return. */
  datatype Guard = Pass | Fail(code: string) {
    predicate IsFailure() { Fail? }

    function PropagateFailure<U>(): Result<U>
      requires Fail?
    {
      Err(code)
    }
  }

  /** `:- Check(cond, code)` stands for a guarded throw carrying an error code. */
  function Check(condition: bool, code: string): (r: Guard)
    ensures r.Pass? <==> condition
  {
    if condition then Pass else Fail(code)
  }
}
