/** Small value types shared by every route of the backend. */
module Common {

  /** A value that may be absent (`undefined`/`null` in the backend). */
  datatype Option<+T> = None | Some(value: T) {
    function GetOr(default: T): T {
      match this
      case Some(v) => v
      case None => default
    }
  }

  /** What a route handler sends back: a JSON body with a status code, or an
      error status with its message. */
  datatype Reply<+T> = Ok(status: nat, body: T) | Fail(status: nat, message: string)
}
