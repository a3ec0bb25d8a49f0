/** The two pieces of the Java language the deployer's logic turns on: a
    reference that may be null, and the exceptions it raises or catches. */
module Java {
  /** A Java reference that may be null. */
  datatype Option<T> = None | Some(value: T)

  /** The exceptions the core raises or catches. */
  datatype Exception =
    | IllegalArgument(message: string)  // thrown by install on a null file
    | IOFailure                         // a process that cannot be spawned, a failed stream read, a failed registration
    | NullPointer                       // an OVERFLOW watch event, whose context is null
}
