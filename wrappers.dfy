/** Optional values (a Java reference that may be null) and results that may carry an error
    (a Java exception that ends the operation). */
module Wrappers {

  /** `None` stands for Java `null`. */
  datatype Option<+T> = None | Some(value: T)

  datatype Result<+R, +E> = Success(value: R) | Failure(error: E)
}
