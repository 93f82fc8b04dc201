/** Small failure-carrying datatypes shared by the other modules. */
module Results {

  /** A value that may be absent, as a Python dictionary lookup with no default. */
  datatype Option<+T> = None | Some(value: T) {
    function GetOr(default: T): T {
      match this
      case Some(v) => v
      case None => default
    }
  }

  /** Either a value or the message of the failed result that replaces it. */
  datatype Result<+T> = Ok(value: T) | Err(msg: string)

  /** A check that passes or fails with a message. */
  datatype Outcome = Pass | Fail(msg: string)
}
