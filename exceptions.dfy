/**
 * The .NET exceptions the modelled code throws or catches. The catch clauses
 * of the source select by exception class, so the model keeps the class.
 */
module Exceptions {

  datatype Exception =
    | ArgumentNull(paramName: string)        // System.ArgumentNullException
    | ArgumentOutOfRange(paramName: string)  // System.ArgumentOutOfRangeException
    | Argument(reason: string)               // System.ArgumentException itself
    | Format                                 // System.FormatException
    | Overflow                               // System.OverflowException
    | InvalidMessage(reason: string)         // Salvac.Sessions.Fsd.Messages.InvalidMessageException
    | InvalidOperation(reason: string)       // System.InvalidOperationException
    | ObjectDisposed(objectName: string)     // System.ObjectDisposedException
    | IO(reason: string)                     // System.IO.IOException
    | Socket(errorCode: int)                 // System.Net.Sockets.SocketException

  /** True for ArgumentException and its subclasses ArgumentNullException and ArgumentOutOfRangeException. */
  predicate IsArgumentException(e: Exception) {
    e.ArgumentNull? || e.ArgumentOutOfRange? || e.Argument?
  }
}
