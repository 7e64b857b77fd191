/** Value wrappers shared by the model: an optional value and the outcome of
    a call that may raise one of the Python exceptions the core can raise. */
module Outcomes {

  /** Python's `None` or a present value. */
  datatype Option<+T> = None | Some(value: T)

  /** The exceptions that escape the modelled functions. */
  datatype Error =
    | ValueError   // middle_truncate with a limit below the indicator length
    | IndexError   // select_stockrecord on a product without stock records
    | KeyError     // Selector.strategy when the profile has no 'country' entry

  /** A returned value, or the exception raised instead. */
  datatype Result<+T> = Ok(value: T) | Err(error: Error)
}
