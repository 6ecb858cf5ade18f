/**
 Shared vocabulary of the model: optional values, results, and the error
 values the library produces or passes through.
 */
module Base {

  /** A value that may be absent (Go's nil pointer or "no such entry"). */
  datatype Option<+T> = None | Some(value: T)

  /** A header: name and value. Go maps of strings become sequences of these. */
  type Header = (string, string)

  /**
   The errors the modelled code returns. Go builds most of them with
   fmt.Errorf from a format constant; the model keeps the constant's identity
   and the formatted argument, not the rendered text.
   */
  datatype Error =
    | InvalidCommand(command: string)     // EInvalidCommandProvided, formatted with a raw command
    | InvalidMessage(headers: seq<Header>) // EInvalidCommandProvided, formatted with a sendmsg header map
    | CouldNotSendEvent(headerCount: nat)  // ECouldNotSendEvent
    | WriteFailed                          // an error returned by a write on the socket
    | ConnectionError(text: string)        // a read or parse error of the connection, by its text
    | ChannelClosed                        // EChannelClosed
    | ChannelHangup                        // EChannelHangup
    | NumSyntax(input: string)             // strconv.ErrSyntax
    | NumRange(input: string)              // strconv.ErrRange

  /** Either a value or the error that replaced it (Go's `(T, error)` pair). */
  datatype Result<+T> = Ok(value: T) | Err(error: Error)
}
