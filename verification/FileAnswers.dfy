/** Outcomes of the descriptor-relative file layer (`JournalError`). */
module FileAnswers {

  datatype Fault = UnsafeEntry | Corrupt | Conflict | Capacity | Pending | Io
  datatype Answer<+T> = Fine(value: T) | Failed(why: Fault) {
    predicate IsFailure() {
      Failed?
    }

    function PropagateFailure<U>(): Answer<U>
      requires Failed?
    {
      Failed(why)
    }

    function Extract(): T
      requires Fine?
    {
      value
    }
  }
}
