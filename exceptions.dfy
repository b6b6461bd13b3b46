/** Values and failures shared by every part of the calculator.
    A call that the C# code ends by throwing an exception returns `Throws(e)` here,
    where `e` names the .NET exception type (and carries its message where the
    callers depend on it). */
module Exceptions {

  datatype Option<+T> = None | Some(value: T)

  /** The exceptions the calculators can raise. */
  datatype Exception =
    | FormatException              // Int32.Parse on text that is not an integer
    | OverflowException            // Int32.Parse on an integer outside the 32-bit range
    | IndexOutOfRangeException     // the string indexer read past the end
    | ArgumentOutOfRangeException  // Substring with index -1, List indexer on an empty list
    | NegativeNumberException(message: string)      // StringCalculator.NegativeNumberException
    | CalcNegativeNumberException(message: string)  // calc.NegativeNumberException, a class of its own
    | InvalidOperationException(message: string)

  /** The outcome of a call that returns a `T` or throws. */
  datatype Result<+T> = Ok(value: T) | Throws(exception: Exception) {

    predicate IsFailure() {
      Throws?
    }

    function PropagateFailure<U>(): Result<U>
      requires Throws?
    {
      Throws(exception)
    }

    function Extract(): T
      requires Ok?
    {
      value
    }
  }
}
