/** What the modules share. */
module Common {
  datatype Option<+T> = None | Some(value: T)

  // The exceptions of the source, where it matters which one is thrown.
  datatype Error =
    | HandlerError(code: nat)      // HandlerError
    | InvalidArgument              // std::invalid_argument
    | LogicError                   // std::logic_error
    | DbError                      // DBConn::DBError

  datatype Result<+T> = Ok(value: T) | Err(error: Error)

  // A char of a std::string is one byte.
  type Octet = c: char | c as int < 256

  lemma Assoc<T>(a: seq<T>, b: seq<T>, c: seq<T>)
    ensures (a + b) + c == a + (b + c)
  {
  }
}
