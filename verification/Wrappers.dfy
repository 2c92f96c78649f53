/** The outcome types shared by every module of the model. */
module Wrappers {

  datatype Option<+T> = None | Some(value: T)

  /** A Go `(T, error)` pair: the error keeps the source's error code. */
  datatype Result<+T> = Ok(value: T) | Err(code: string) {
    predicate IsFailure() {
      Err?
    }

    function PropagateFailure<U>(): Result<U>
      requires Err?
    {
      Err(code)
    }

    function Extract(): T
      requires Ok?
    {
      value
    }
  }

  /** The answer is yes; an error is neither yes nor no. */
  predicate Yes(r: Result<bool>) {
    r.Ok? && r.value
  }

  predicate No(r: Result<bool>) {
    r.Ok? && !r.value
  }

  /** A Go `error` result: nil, or the source's error code. */
  datatype Check = Pass | Fail(code: string)

  /** The outcome of looking for a fault. */
  function CheckOf(fault: Option<string>): Check {
    match fault
    case None => Pass
    case Some(code) => Fail(code)
  }
}
