/** Failure-compatible result type used by every stage of the record-cleaning
    chain. The Python code signals failure by raising; here each stage returns
    a `Result` whose error carries the kind of failure. */
module Outcomes {

  /** Why a stage of the chain gave up on a record. */
  datatype ErrorKind =
    | FieldNotFound(field: string)       // a `re.search` found nothing
    | NotAnInteger(token: string)        // `int()` rejected the matched text
    | ZeroFormulaUnits                   // the forced failure for Z = 0
    | CompositionUnparsable(formula: string)
    | MissingProperty(symbol: string, column: string)  // `float(None)` or `math.isnan(None)`
    | BadPrecision(places: int)          // a format spec with negative precision
    | DivisionByZero

  datatype Option<+T> = None | Some(value: T)

  datatype Result<+T> = Ok(value: T) | Err(error: ErrorKind) {
    predicate IsFailure() { Err? }

    function PropagateFailure<U>(): Result<U>
      requires Err?
    {
      Err(error)
    }

    function Extract(): T
      requires Ok?
    {
      value
    }
  }
}
