/** Failure-carrying wrappers shared by the whole model. */
module Results {

  /** A value that may be absent (`T | undefined` / `T | null` in the application). */
  datatype Option<+T> = None | Some(value: T) {
    function GetOr(default: T): T {
      match this
      case Some(v) => v
      case None => default
    }
  }

  /** The outcome of an operation that can reject (a promise that rejects or a thrown error). */
  datatype Result<+T> = Success(value: T) | Failure(message: string)
}
