/** Java's null references, exceptions and completed futures, as values. */
module Wrappers {

  /** A Java reference that may be null: None stands for null. */
  datatype Option<+T> = None | Some(value: T)

  /** The Java exceptions the modelled code raises or lets through. */
  datatype Exception =
    | IllegalArgumentException
    | NumberFormatException
    | NullPointerException
    | UnknownHostException
    | RuntimeException
      /** What CompletableFuture.join throws for a future that completed exceptionally. */
    | CompletionException(cause: Exception)

  /** A call that either returns a value or throws. */
  datatype Result<+T> = Ok(value: T) | Throws(exception: Exception)

  /** A CompletableFuture<List<T>> once it has completed: the list, or the exception it completed with. */
  type Future<T> = Result<seq<T>>

  /** Java's string rendering of a nullable string, as `+` concatenation produces it. */
  function StringOrNull(s: Option<string>): string
  {
    match s
    case None => "null"
    case Some(v) => v
  }
}
