/** Failure-compatible wrappers, and the three exceptions the query engine can raise. */
module Results {

  datatype Option<+T> = None | Some(value: T)

  datatype Result<+T, +E> = Success(value: T) | Failure(error: E) {

    predicate IsFailure() {
      Failure?
    }

    function PropagateFailure<U>(): Result<U, E>
      requires Failure?
    {
      Failure(error)
    }

    function Extract(): T
      requires Success?
    {
      value
    }
  }

  /** What a query can end in instead of a result list. */
  datatype Error =
      /** `new Long(text)` rejected the text (a null text included). */
    | NumberFormat(text: Option<string>)
      /** NotFoundException: no document carries the concept id. */
    | NotFound(conceptId: string)
      /** UnsupportedOperationException: `Some(feature)` names the construct;
          `None` is the generic message for a compound expression. */
    | Unsupported(feature: Option<string>)
}
