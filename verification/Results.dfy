/** Outcomes of operations that the platform ends by throwing. */
module Results {

  /** The exceptions the services and the pure packages throw, by kind. */
  datatype Fault =
    | NotFound
    | BadRequest
    | Forbidden
    | Conflict
    | CurrencyMismatch
    | EmptySum
    | TooFewPostings
    | InvalidPosting(index: nat)
    | UnbalancedJournal(debit: int, credit: int)
    | UnknownAccount
    | NegativeBuffer
    | InvalidArgument
    | IssuerUnreachable

  datatype Result<+T> = Ok(value: T) | Err(fault: Fault) {
    predicate IsFailure() {
      Err?
    }

    function PropagateFailure<U>(): Result<U>
      requires Err?
    {
      Err(fault)
    }

    function Extract(): T
      requires Ok?
    {
      value
    }
  }

  datatype Option<+T> = None | Some(value: T) {
    function GetOr(default: T): T {
      match this
      case Some(v) => v
      case None => default
    }
  }
}
