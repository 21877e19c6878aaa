/** Failure-compatible wrappers and the error taxonomy of the feature engine. */
module Outcomes {

  datatype Option<+T> = None | Some(value: T)

  /** Why an operation of the engine raised instead of producing a table. */
  datatype Error =
    | MissingColumn(column: string)    // a group key or source column absent from the ledger (pandas KeyError)
    | NoGroupKeys                      // groupby over an empty key list (pandas "No group keys passed!")
    | NothingToConcatenate             // pd.concat of zero objects ("No objects to concatenate")
    | UnknownGranularity(name: string) // a granularity name missing from the configured mapping

  datatype Result<+T> = Ok(value: T) | Err(error: Error) {
    predicate IsFailure() { Err? }

    function PropagateFailure<U>(): Result<U>
      requires Err?
    {
      Err(error)
    }

    function Extract(): T
      requires Ok?
    {
      value
    }
  }
}
