/** Swift's optionals and thrown errors, as values. */
module Wrappers {

  /** `T?` in Swift. */
  datatype Option<+T> = None | Some(value: T)

  /** The outcome of a Swift call that either returns a value or throws an error. */
  datatype Result<+T> = Success(value: T) | Failure(description: string)
}
