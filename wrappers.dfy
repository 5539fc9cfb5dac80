/** Option and Result, and the ways a synchronisation run can be cut short. */
module Wrappers {

  datatype Option<+T> = None | Some(value: T)

  datatype Result<+T, +E> = Ok(value: T) | Err(error: E)

  /** The exceptions that escape `lambda_handler` and end the run. */
  datatype Error =
    | MissingProductId  // a product record without an 'id' (KeyError)
    | NoSuchTable       // a query against a table that was never created
    | EmptyTable        // MAX(time) of an empty table is NULL and cannot be formatted as a date
    | FetchFailed       // the exchange call raised, leaving `data` unbound (NameError)
}
