/** Failure-carrying datatypes shared by every part of the interpreter model. */
module Results {

  datatype Option<+T> = None | Some(value: T)

  /** The ways a read or an evaluation can fail.  Each stands for the Java
      exception that the interpreter lets escape to the REPL loop. */
  datatype Error =
    | UnexpectedEof    // `read` called on an empty token list
    | UnexpectedClose  // a ")" where an expression should start
    | IllegalCapacity  // `new ArrayList(n)` with n == -1: "(" was the last token
    | OutOfRange       // `List.get` or an array access past the end
    | TypeError        // a failed cast, or a method called on null
    | OutOfFuel        // evaluation nested deeper than the given bound

  datatype Result<+T> = Ok(value: T) | Err(error: Error)
}
