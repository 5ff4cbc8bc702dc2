/** The evaluator's failures, which the original signals by panicking. */
module Outcomes {
  import opened Values
  import opened Syntax

  datatype Error =
    | Unsupported(op: Op)          // a recognised operator that is not implemented
    | NotAnArray(context: Json)    // a filter applied to a value that is not an array
    | KeyNotString(key: Json)      // a dynamic key whose value is not a string
    | BadNumber(lexeme: string)    // a number literal that does not parse

  datatype Result<T> = Ok(value: T) | Err(error: Error) {
    predicate IsFailure() { Err? }

    function PropagateFailure<U>(): Result<U>
      requires Err?
    {
      Err(error)
    }

    function Extract(): T
      requires Ok?
    {
      value
    }
  }
}
