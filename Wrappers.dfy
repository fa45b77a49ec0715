/** Option and Result, used where the C# code returns null, uses a nullable
    reference or throws. */
module Wrappers {

  datatype Option<+T> = None | Some(value: T) {
    function GetOr(default: T): T {
      match this
      case Some(v) => v
      case None => default
    }
  }

  /** ArgumentNullException, the exception Parse raises. The ArgumentException
      of ToDictionary on duplicate option line indices is excluded by
      requires instead (Notes.DistinctLineIndices). */
  datatype Error = ArgumentNull

  datatype Result<+T> = Ok(value: T) | Err(error: Error)
}
