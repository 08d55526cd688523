/** Results of operations that may be missing a value or may fail. */
module Wrappers {

  datatype Option<+T> = None | Some(value: T) {

    function GetOr(default: T): T {
      match this
      case Some(v) => v
      case None => default
    }
  }

  /** The error codes the persistence provider attaches to the errors it throws. */
  datatype Code =
    | EFormat
    | EStorageFault
    | EClosed
    | EWriterLease
    | ECas
    | EBudget
    | EScanUnbounded
    | EScanTruncated
    | EWrite  // an error of the file system, which carries no code of the provider
    | EThrown // an error raised by a transaction callback

  datatype Result<+T> = Success(value: T) | Failure(code: Code)
}
