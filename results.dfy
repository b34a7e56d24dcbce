/** The kinds of failure the library raises, and the result types that carry them. */
module Results {

  /** One constructor per exception the library raises (or lets Python raise). */
  datatype Error =
    | NotADistribution     // the probabilities do not sum to 1 within the tolerance
    | KeyNotOneSymbol      // an alphabet key is not a string of length 1
    | SymbolNotInAlphabet  // a character of A or B is not a key of the alphabet
    | StrictSubstring      // one pattern is a strict substring of the other
    | SamePattern          // the odds of a pattern against itself were asked for
    | DivisionByZero       // a division by zero: a zero probability or a zero denominator

  /** A value, or the error that stopped the computation. */
  datatype Result<+T> = Ok(value: T) | Err(error: Error) {
    predicate IsFailure() { Err? }

    function PropagateFailure<U>(): Result<U>
      requires Err?
    {
      Err(error)
    }

    function Extract(): T
      requires Ok?
    {
      value
    }
  }

  /** The outcome of a check that produces no value. */
  datatype Outcome = Pass | Fail(error: Error)
}
