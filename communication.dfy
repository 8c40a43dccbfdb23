/**
 * The records exchanged between client and server: the client's `Input`
 * (the typed command line and the transport tier it is sent on) and the
 * server's `Output`.
 */
module Communication {
  import opened Command

  /** `CommandType`: the transport tier a request is tagged with. */
  datatype CommandType = Unsecure | Secure

  /** `CommandStatus`, as far as the client distinguishes it. */
  datatype CommandStatus = Successful | NotSuccessful

  /** `Input`: a command line and its tier. */
  datatype Input = Input(message: string, commandType: CommandType)

  /**
   * `Output`: the server's message, the status and kind of the operation
   * it ran, and whether it found the session already logged out.
   */
  datatype Output = Output(message: string, status: CommandStatus, commandBehaviour: CommandBehavior, loggedOut: bool)
}
