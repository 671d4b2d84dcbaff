/** Option and the error outcomes of the analysis scripts. */
module Wrappers {

  datatype Option<+T> = None | Some(value: T)

  /** The exceptions the two scripts can raise, as values. */
  datatype Error =
    | FileNotFound            // the mandatory recalculated-foreigners table is missing
    | KeyError(column: string) // a column selected by name is absent
    | TypeError                // pandas refuses an operand (a label naming several columns, text divided by a number)
    | ValueError               // pandas refuses a merge key or an assignment that is not a single column
    | AttributeError           // a label naming several columns gives a frame, which has no `tolist`

  datatype Result<+T> = Ok(value: T) | Err(error: Error)
}
