/** What reaches a session's actor over its command channel. */
module ActorCommands {
  import opened Bytes

  /** What the consumer of a client queue does just before a send: takes frames, and perhaps drops the receiver. */
  datatype Consume = Consume(taken: nat, hangup: bool)

  /** A new client: replay depth, terminal size, and the behaviour of its queue's consumer. */
  datatype AttachRequest = AttachRequest(wantChunks: nat, cols: u16, rows: u16, consumer: nat -> Consume)

  datatype SessionCommand =
    | Input(bytes: seq<byte>)
    | Resize(cols: u16, rows: u16)
    | Close(graceMs: u32)
    | Attach(req: AttachRequest)
    | Info
}
