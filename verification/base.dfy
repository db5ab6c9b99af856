/** Failure-carrying wrappers and the Python exceptions that the modelled
    code raises or catches. */
module Base {

  datatype Option<+T> = None | Some(value: T) {
    function GetOr(default: T): T {
      match this
      case Some(v) => v
      case None => default
    }
  }

  datatype Result<+T, +E> = Ok(value: T) | Err(error: E)

  /** The exception classes the pipeline distinguishes in its `except` clauses. */
  datatype Kind =
    | MySqlError        // mysql.connector.Error and its subclasses
    | TypeError         // e.g. strptime() given None
    | AttributeError    // e.g. None.upper()
    | StopIteration     // next() on an exhausted reader; its text is empty
    | IntCastingNaN     // pandas casting NaN to int
    | PlainException    // a bare `Exception(...)`

  /** A raised exception: its class and `str(e)`. */
  datatype Exc = Exc(kind: Kind, text: string)
}
