/** Failure values shared by the metric modules, and a Result datatype that
    carries either a computed value or the reason the computation fails.
    The Python code raises exceptions (ValueError, IndexError) or lets numpy
    produce NaN; each such outcome becomes one Error constructor here. */
module Results {

  /** Why a metric could not be computed. */
  datatype Error =
    | LengthMismatch     // two aligned input vectors differ in length (ValueError)
    | InvalidMethod      // an ordering method other than "predict" / "predict_proba" (ValueError)
    | MissingColumn      // a probability row without a second column (IndexError)
    | UnpackMismatch     // a confusion table that does not hold exactly four cells (ValueError)
    | DivisionByZero     // a ratio whose denominator is zero (numpy yields NaN or inf)

  /** Either the computed value or the error that stopped the computation. */
  datatype Result<+T> = Success(value: T) | Failure(error: Error) {

    predicate IsFailure() {
      Failure?
    }

    function PropagateFailure<U>(): Result<U>
      requires Failure?
    {
      Failure(error)
    }

    function Extract(): T
      requires Success?
    {
      value
    }
  }
}
