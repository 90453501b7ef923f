/** A session connection: its first frame, then its reader, which turns frames into actor commands. */
module Connection {
  import opened Bytes
  import opened Protocol
  import opened ActorCommands

  /** What one socket read delivers: at least one byte, at most the reader's buffer. */
  type Chunk = s: seq<byte> | 0 < |s| <= READ_BUFFER witness [0]

  datatype AttachOrOpen = AttachOrOpen(sessionId: string, wantChunks: nat, cols: u16, rows: u16)

  /** The JSON decoders, taken as arbitrary functions of the payload; None is a decoding error. */
  datatype Json = Json(
    attach: seq<byte> -> Option<AttachOrOpen>,
    resize: seq<byte> -> Option<(u16, u16)>,
    close: seq<byte> -> Option<u32>)

  // ------------------------------------------------------- specification

  function GraceOf(json: Json, f: Frame): u32 {
    match json.close(f.payload)
    case Some(ms) => ms
    case None => 0
  }

  /** The command of one frame that follows the first: nothing for malformed RESIZE and for foreign types. */
  function CommandOf(json: Json, f: Frame): seq<SessionCommand> {
    match f.ty
    case Input => [SessionCommand.Input(f.payload)]
    case Resize =>
      (match json.resize(f.payload)
       case Some(size) => [SessionCommand.Resize(size.0, size.1)]
       case None => [])
    case Close => [SessionCommand.Close(GraceOf(json, f))]
    case _ => []
  }

  /** The commands of a frame sequence, up to and including its first CLOSE. */
  function Commands(json: Json, fs: seq<Frame>): seq<SessionCommand> {
    if fs == [] then []
    else if fs[0].ty.Close? then CommandOf(json, fs[0])
    else CommandOf(json, fs[0]) + Commands(json, fs[1..])
  }

  function AttachOf(req: AttachOrOpen, consumer: nat -> Consume): SessionCommand {
    Attach(AttachRequest(req.wantChunks, req.cols, req.rows, consumer))
  }

  /** Everything a session connection should send, from all the frames its peer ever sent. */
  function SessionCommands(
    json: Json, admits: string -> bool, consumer: nat -> Consume, fs: seq<Frame>): seq<SessionCommand>
  {
    if fs == [] || !fs[0].ty.AttachOrOpen? then []
    else
      match json.attach(fs[0].payload)
      case None => []
      case Some(req) => if admits(req.sessionId) then [AttachOf(req, consumer)] + Commands(json, fs[1..]) else []
  }

  function Take<T>(s: seq<T>, n: nat): seq<T> {
    if |s| <= n then s else s[..n]
  }

  /** The first commands of a stream: those of its first frame, and then, unless that ends it, those of the rest. */
  lemma TakeStep(json: Json, f: Frame, fs: seq<Frame>, n: nat)
    ensures var cmd := CommandOf(json, f);
            Take(Commands(json, [f] + fs), n) ==
            if f.ty.Close? || |cmd| > n then Take(cmd, n) else cmd + Take(Commands(json, fs), n - |cmd|)
  {
    assert ([f] + fs)[1..] == fs;
  }

  // ---------------------------------------------------------- environment

  /** The read half of the socket: the reads still to come, then end of stream (or a read error). */
  class Socket {
    var incoming: seq<Chunk>

    constructor (chunks: seq<Chunk>)
      ensures incoming == chunks
    {
      incoming := chunks;
    }

    ghost function Stream(): seq<byte>
      reads this
    {
      Flatten(incoming)
    }

    method Read() returns (bytes: seq<byte>)
      modifies this
      ensures bytes == [] <==> old(incoming) == []
      ensures |bytes| <= READ_BUFFER
      ensures old(Stream()) == bytes + Stream()
      ensures bytes == [] ==> old(Stream()) == []
      ensures bytes != [] ==> |incoming| < |old(incoming)|
    {
      if incoming == [] {
        return [];
      }
      FlattenCons(incoming[0], incoming[1..]);
      assert incoming == [incoming[0]] + incoming[1..];
      bytes, incoming := incoming[0], incoming[1..];
    }
  }

  /**
   * The sending end of the actor's command channel. It takes `accepts` more commands; then the actor is gone,
   * or the reader has been aborted because the connection's writer ended first.
   */
  class Mailbox {
    var accepts: nat
    var sent: seq<SessionCommand>

    constructor (n: nat)
      ensures accepts == n && sent == []
    {
      accepts, sent := n, [];
    }

    method Send(c: SessionCommand) returns (ok: bool)
      modifies this
      ensures ok == (old(accepts) > 0)
      ensures sent == old(sent) + (if ok then [c] else [])
      ensures accepts == old(accepts) - (if ok then 1 else 0)
    {
      ok := accepts > 0;
      if ok {
        sent, accepts := sent + [c], accepts - 1;
      }
    }
  }

  // ------------------------------------------------------------- the code

  /** The connection's first frame; None if the stream ends, or fails to parse, before there is one. */
  method ReadOneFrame(socket: Socket, dec: FrameDecoder) returns (first: Option<Frame>)
    requires dec.Valid() && dec.disciplined
    modifies socket, dec
    ensures dec.Valid() && dec.disciplined
    ensures first.Some? ==> Greedy(old(dec.Unread() + socket.Stream()))
                            == Prepend([first.value], Greedy(dec.Unread() + socket.Stream()))
    ensures first.None? ==> Greedy(old(dec.Unread() + socket.Stream())).frames == []
  {
    ghost var stream := dec.Unread() + socket.Stream();
    while true
      invariant dec.Valid() && dec.disciplined
      invariant dec.Unread() + socket.Stream() == stream
      decreases |socket.incoming|
    {
      ghost var unread := dec.Unread();
      var r := dec.NextFrame();
      FrontDecides(unread, socket.Stream());
      if r.Err? {
        return None;
      }
      if r.value.Some? {
        return Some(r.value.value);
      }
      var bytes := socket.Read();
      if bytes == [] {
        assert unread + [] == unread;
        return None;
      }
      assert unread + (bytes + socket.Stream()) == unread + bytes + socket.Stream();
      dec.Push(bytes);
    }
  }

  /** What a decided front of the unread bytes says about the whole remaining stream. */
  lemma FrontDecides(unread: seq<byte>, more: seq<byte>)
    ensures var front := ParseFront(unread);
            && (front.NeedMore? ==> Greedy(unread) == Parse([], None))
            && (front.Bad? ==> Greedy(unread + more) == Parse([], Some(front.error)))
            && (front.Got? ==> Greedy(unread + more) == Prepend([front.frame], Greedy(unread[front.size..] + more)))
  {
    if !ParseFront(unread).NeedMore? {
      FrontIsStable(unread, more);
      if ParseFront(unread).Got? {
        var n := ParseFront(unread).size;
        assert (unread + more)[n..] == unread[n..] + more;
      }
    }
  }

  /** Sends the command of one frame, if it has one; says whether the connection ends there. */
  method Deliver(json: Json, frame: Frame, mailbox: Mailbox) returns (stop: bool)
    modifies mailbox
    ensures mailbox.sent == old(mailbox.sent) + Take(CommandOf(json, frame), old(mailbox.accepts))
    ensures mailbox.accepts + |mailbox.sent| == old(mailbox.accepts + |mailbox.sent|)
    ensures stop == (frame.ty.Close? || |CommandOf(json, frame)| > old(mailbox.accepts))
  {
    stop := false;
    match frame.ty {
      case Input =>
        var ok := mailbox.Send(SessionCommand.Input(frame.payload));
        stop := !ok;
      case Resize =>
        var size := json.resize(frame.payload);
        if size.Some? {
          var ok := mailbox.Send(SessionCommand.Resize(size.value.0, size.value.1));
          stop := !ok;
        }
      case Close =>
        // The connection ends here, whether or not the actor still takes the command.
        var grace := json.close(frame.payload);
        var _ := mailbox.Send(SessionCommand.Close(if grace.Some? then grace.value else 0));
        stop := true;
      case _ =>
    }
  }

  /**
   * Socket to commands. `dec` still holds what came in behind the first frame, so it is drained
   * before the first read. The commands accepted are exactly the first ones of the whole stream's
   * commands, as many as the actor takes: reads may split that stream anywhere.
   */
  method ReaderTask(json: Json, socket: Socket, dec: FrameDecoder, mailbox: Mailbox)
    requires dec.Valid() && dec.disciplined
    modifies socket, dec, mailbox
    ensures dec.Valid() && dec.disciplined
    ensures mailbox.sent == old(mailbox.sent)
                            + Take(Commands(json, Greedy(old(dec.Unread() + socket.Stream())).frames),
                                   old(mailbox.accepts))
  {
    hide ParseFront, Greedy, Commands, Take, FrameDecoder.Valid;
    ghost var goal := ToCome(json, mailbox, dec.Unread() + socket.Stream());
    NothingToSend(json);
    var haveBytes := true;
    while true
      invariant dec.Valid() && dec.disciplined
      invariant goal == ToCome(json, mailbox, dec.Unread() + socket.Stream())
      invariant haveBytes || ParseFront(dec.Unread()).NeedMore?
      decreases |socket.incoming|, haveBytes
    {
      if !haveBytes {
        ghost var unread := dec.Unread();
        var bytes := socket.Read();
        if bytes == [] {
          FrontDecides(unread, []);
          assert unread + [] == unread;
          return;
        }
        assert unread + (bytes + socket.Stream()) == unread + bytes + socket.Stream();
        dec.Push(bytes);
      }
      haveBytes := false;
      var stop := TakeFrames(json, socket, dec, mailbox);
      if stop {
        return;
      }
    }
  }

  /** The inner loop: all frames that are complete by now; says whether one of them ended the connection. */
  method TakeFrames(json: Json, socket: Socket, dec: FrameDecoder, mailbox: Mailbox) returns (stop: bool)
    requires dec.Valid() && dec.disciplined
    modifies dec, mailbox
    ensures dec.Valid() && dec.disciplined
    ensures old(ToCome(json, mailbox, dec.Unread() + socket.Stream()))
            == if stop then mailbox.sent else ToCome(json, mailbox, dec.Unread() + socket.Stream())
    ensures !stop ==> ParseFront(dec.Unread()).NeedMore?
  {
    hide ParseFront, Greedy, Commands, CommandOf, FrameDecoder.Valid;
    ghost var goal := ToCome(json, mailbox, dec.Unread() + socket.Stream());
    ghost var stream := socket.Stream();
    NothingToSend(json);
    while true
      modifies dec, mailbox
      invariant dec.Valid() && dec.disciplined && socket.Stream() == stream
      invariant goal == ToCome(json, mailbox, dec.Unread() + stream)
      decreases |dec.Unread()|
    {
      FrontDecides(dec.Unread(), stream);
      var r := dec.NextFrame();
      if r.Err? {
        return true;
      }
      if r.value.None? {
        return false;
      }
      TakeStep(json, r.value.value, Greedy(dec.Unread() + stream).frames, mailbox.accepts);
      stop := Deliver(json, r.value.value, mailbox);
      if stop {
        return true;
      }
    }
  }

  /** What will have been sent in the end, if `rest` is still to come. */
  ghost function ToCome(json: Json, mailbox: Mailbox, rest: seq<byte>): seq<SessionCommand>
    reads mailbox
  {
    mailbox.sent + Take(Commands(json, Greedy(rest).frames), mailbox.accepts)
  }

  lemma NothingToSend(json: Json)
    ensures forall n: nat :: Take(Commands(json, []), n) == []
  {
  }

  /**
   * A whole session connection: first frame, registry admission, Attach, then the reader on the same
   * decoder. Nothing pipelined behind the first frame is lost, and the socket's read boundaries do
   * not show.
   */
  method ServeConnection(
    json: Json, socket: Socket, admits: string -> bool, consumer: nat -> Consume, mailbox: Mailbox)
    returns (dec: FrameDecoder)
    requires mailbox.sent == []
    modifies socket, mailbox
    ensures mailbox.sent
            == Take(SessionCommands(json, admits, consumer, Greedy(old(socket.Stream())).frames), old(mailbox.accepts))
    ensures dec.Valid() && dec.disciplined
  {
    hide ParseFront, Greedy, Commands, FrameDecoder.Valid, Flatten, Gather;
    ghost var frames := Greedy(socket.Stream()).frames;
    dec := new FrameDecoder();
    assert dec.Unread() + socket.Stream() == socket.Stream();
    var first := ReadOneFrame(socket, dec);
    ghost var rest := Greedy(dec.Unread() + socket.Stream()).frames;
    assert first.Some? ==> frames == [first.value] + rest && frames[0] == first.value && frames[1..] == rest;
    if first.None? || !first.value.ty.AttachOrOpen? {
      return;
    }
    var req := json.attach(first.value.payload);
    if req.None? || !admits(req.value.sessionId) {
      return;
    }
    var ok := mailbox.Send(AttachOf(req.value, consumer));
    if !ok {
      return;
    }
    ReaderTask(json, socket, dec, mailbox);
  }
}
