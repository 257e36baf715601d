/** Outcomes of the personal store's operations, shared by every module. */
module Results {

  datatype Option<+T> = None | Some(value: T)

  /** The content-free refusals of the parent adapter. */
  datatype Refusal = NotAvailable | Pending | Conflict | Backpressure | Unavailable

  datatype Result<+T> = Ok(value: T) | Err(refusal: Refusal) {
    predicate IsFailure() {
      Err?
    }

    function PropagateFailure<U>(): Result<U>
      requires Err?
    {
      Err(refusal)
    }

    function Extract(): T
      requires Ok?
    {
      value
    }
  }
}
