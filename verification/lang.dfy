/** Java-level notions the model needs: a reference that may be null, a call
    that either returns or throws, and the exceptions the cache code throws or
    hands to its callbacks. */
module Lang {

  /** A Java reference that may be `null` (`None`). */
  datatype Option<+T> = None | Some(value: T)

  /** A call that either returns `value` or throws `error`. */
  datatype Result<+T, +E> = Success(value: T) | Failure(error: E)

  /** The exceptions that occur in the modelled code, with their messages. */
  datatype Exception =
    | NullPointer(message: string)
    | IllegalArgument(message: string)
    | UnsupportedTemporalType(message: string)
    | Io(message: string)
    | Runtime(message: string)
    /** The `IllegalArgumentException` of `UUID.fromString` on element `index`
        of a JSON array. */
    | InvalidUuid(index: nat)
}
