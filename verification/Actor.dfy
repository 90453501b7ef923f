/**
 * The session actor as a state machine: one step per arm of its select loop. PTY, clock, foreground
 * poll and client sockets are the environment; what they do arrives inside the events.
 */
module Actor {
  import opened Bytes
  import opened Sink
  import opened ActorCommands
  import P = Protocol

  const USIZE_MAX: nat := 0xffff_ffff_ffff_ffff

  datatype Lifecycle = Live | Dead(status: int)

  /** The STATUS value a client sees. */
  datatype Snapshot = Snapshot(running: bool, progress: Option<byte>)

  datatype OutFrame = DataFrame(payload: seq<byte>) | StatusFrame(snap: Snapshot) | ExitFrame(code: int)

  /** The replay engine, as functions of all bytes fed to it. */
  datatype Engine = Engine(status: seq<byte> -> Status, replay: (seq<byte>, nat) -> seq<byte>)

  /** The last field is the terminal size that the session was opened with. */
  datatype Config = Config(engine: Engine, outQueue: nat, deadGrace: nat, size: (u16, u16))

  // -------------------------------------------------------- client queues

  /**
   * A client's bounded queue. `sent` is every frame ever queued, `waiting` how many of them are not yet
   * consumed, `consumer` the consumer's schedule.
   */
  datatype Queue = Queue(
    cap: nat, consumer: nat -> Consume, tries: nat, waiting: nat, closed: bool, sent: seq<OutFrame>)

  /**
   * An attach: the replay depth asked for, what was offered, how many bytes had been drained by then, and in
   * how many DATA frames.
   */
  datatype AttachRecord = AttachRecord(want: nat, handshake: seq<OutFrame>, at: nat, from: nat)

  function NewQueue(cap: nat, consumer: nat -> Consume): Queue {
    Queue(cap, consumer, 0, 0, false, [])
  }

  /** The queue just before its next send. */
  function Consumed(q: Queue): Queue {
    var c := q.consumer(q.tries);
    q.(
      tries := q.tries + 1,
      waiting := if c.taken < q.waiting then q.waiting - c.taken else 0,
      closed := q.closed || c.hangup)
  }

  predicate Accepts(q: Queue) {
    !Consumed(q).closed && Consumed(q).waiting < q.cap
  }

  /** What a send that cannot wait makes of a queue. */
  function TrySend(q: Queue, f: OutFrame): Queue {
    if Accepts(q) then Consumed(q).(waiting := Consumed(q).waiting + 1, sent := q.sent + [f]) else Consumed(q)
  }

  /** The attach handshake: each frame is tried, failures are ignored. */
  function OfferAll(q: Queue, fs: seq<OutFrame>): Queue {
    if fs == [] then q else TrySend(OfferAll(q, Init(fs)), Last(fs))
  }

  // --------------------------------------------------------------- state

  /** Signals to the shell's group. A kill records the deadline it answers. */
  datatype Signal = Winch | Hup | Kill(at: nat, due: nat)

  datatype Reason = ChannelGone | ClosedWhenDead | AttachedWhenDead | ReapedAfterClose | GraceOver | IoFailed

  /** The reply to an info request, without the fields that never change. */
  datatype InfoReply = InfoReply(running: bool, hasClient: bool)

  /**
   * The fields from `attaches` on are history: of attaches, one per queue, of signals sent, of kill deadlines
   * armed, of the DATA frames that the drained bytes make, of writes to the shell, and of info replies.
   */
  datatype State = State(
    drained: seq<byte>,
    life: Lifecycle,
    size: (u16, u16),
    client: Option<nat>,
    queues: seq<Queue>,
    lastStatus: Option<Snapshot>,
    pollRunning: bool,
    grace: Option<nat>,
    closing: bool,
    kill: Option<nat>,
    left: Option<Reason>,
    attaches: seq<AttachRecord>,
    signals: seq<Signal>,
    armed: seq<nat>,
    output: seq<OutFrame>,
    writes: seq<seq<byte>>,
    replies: seq<InfoReply>)

  /** A freshly opened session. */
  function Opened(size: (u16, u16)): State {
    State([], Live, size, None, [], None, false, None, false, None, None, [], [], [], [], [], [])
  }

  /**
   * `busy` is what the foreground poll would answer at that moment; `exit` is the reaped status, at end of
   * file. The bytes of a failed read are those that had reached the engine before the failure.
   */
  datatype Event =
    | Commanded(cmd: SessionCommand, busy: bool, now: nat)
    | SendersGone
    | Readable(bytes: seq<byte>, exit: Option<int>, busy: bool, now: nat)
    | ReadFailed(bytes: seq<byte>)
    | GraceElapsed(now: nat)
    | KillElapsed(now: nat)
    | PollTick(busy: bool)

  predicate InRange(s: State) {
    s.client.Some? ==> s.client.value < |s.queues|
  }

  // --------------------------------------------------------------- steps

  function MergeRunning(status: Status, pollRunning: bool): bool {
    if status.marked then status.running else pollRunning
  }

  function Effective(c: Config, s: State): Snapshot {
    var status := c.engine.status(s.drained);
    Snapshot(MergeRunning(status, s.pollRunning), status.progress)
  }

  function Framed(fs: seq<P.Frame>): seq<OutFrame> {
    seq(|fs|, i requires 0 <= i < |fs| => DataFrame(fs[i].payload))
  }

  function DataFrames(bytes: seq<byte>): seq<OutFrame> {
    Framed(P.FrameData(bytes))
  }

  function PushOrDrop(s: State, f: OutFrame): (r: State)
    requires InRange(s)
    ensures InRange(r)
  {
    if s.client.None? then s
    else
      var k := s.client.value;
      s.(queues := s.queues[k := TrySend(s.queues[k], f)], client := if Accepts(s.queues[k]) then Some(k) else None)
  }

  function Forward(s: State, fs: seq<OutFrame>): (r: State)
    requires InRange(s)
    ensures InRange(r)
  {
    if fs == [] then s else PushOrDrop(Forward(s, Init(fs)), Last(fs))
  }

  function Marked(c: Config, s: State): bool {
    c.engine.status(s.drained).marked
  }

  /** What the session answers for the foreground poll. */
  function Polled(s: State, busy: bool): bool {
    s.life.Live? && busy
  }

  function Signalled(s: State, signal: Signal): State {
    if s.life.Live? then s.(signals := s.signals + [signal]) else s
  }

  /** A resize is remembered even by a dead session, but only a live shell hears of it. */
  function Sized(s: State, cols: u16, rows: u16): State {
    Signalled(s, Winch).(size := (cols, rows))
  }

  /** A depth of 0 asks for everything. */
  function Depth(want: nat): nat {
    if want == 0 then USIZE_MAX else want
  }

  function Handshake(c: Config, s: State, want: nat): seq<OutFrame> {
    DataFrames(c.engine.replay(s.drained, Depth(want)))
      + [StatusFrame(Effective(c, s))]
      + if s.life.Dead? then [ExitFrame(s.life.status)] else []
  }

  /** Most recent attach wins: the new queue is the client, whatever the sends came to. */
  function AttachClient(c: Config, s: State, req: AttachRequest): (r: State)
    ensures InRange(r)
  {
    var handshake := Handshake(c, s, req.wantChunks);
    Sized(s, req.cols, req.rows).(
      queues := s.queues + [OfferAll(NewQueue(c.outQueue, req.consumer), handshake)],
      attaches := s.attaches + [AttachRecord(req.wantChunks, handshake, |s.drained|, |s.output|)],
      client := Some(|s.queues|))
  }

  /** Sends STATUS if a client is there and the value changed. */
  function PushStatus(c: Config, s: State): (r: State)
    requires InRange(s)
    ensures InRange(r)
  {
    var eff := Effective(c, s);
    if s.lastStatus == Some(eff) then s else PushOrDrop(s, StatusFrame(eff)).(lastStatus := Some(eff))
  }

  /** SIGHUP now, and SIGKILL at a deadline if a grace is given. */
  function Hangup(s: State, graceMs: nat, now: nat): State {
    var t := Signalled(s, Hup).(closing := true);
    if graceMs > 0 then t.(kill := Some(now + graceMs), armed := t.armed + [now + graceMs]) else t
  }

  /** A CLOSE; a session already dead tells its client and ends. */
  function OnClose(s: State, graceMs: nat, now: nat): (r: State)
    requires InRange(s)
    ensures InRange(r)
  {
    var t := Hangup(s, graceMs, now);
    if t.life.Live? then t
    else PushOrDrop(t, ExitFrame(t.life.status)).(client := None, left := Some(ClosedWhenDead))
  }

  /** Before prompt marking, an attach asks the foreground poll. */
  function Refreshed(c: Config, s: State, busy: bool): State {
    if Marked(c, s) then s else s.(pollRunning := Polled(s, busy))
  }

  function OnAttach(c: Config, s: State, req: AttachRequest, busy: bool): (r: State)
    ensures InRange(r)
  {
    var s2 := AttachClient(c, Refreshed(c, s, busy), req);
    var s3 := s2.(lastStatus := Some(Effective(c, s2)));
    if s3.life.Dead? then s3.(left := Some(AttachedWhenDead)) else s3
  }

  /** Input is written to a live shell only. */
  function OnInput(s: State, bytes: seq<byte>): State {
    if s.life.Live? then s.(writes := s.writes + [bytes]) else s
  }

  /** The info reply, from the same two sources of `running`. */
  function OnInfo(c: Config, s: State, busy: bool): State {
    var running := s.life.Live? && if Marked(c, s) then c.engine.status(s.drained).running else busy;
    s.(replies := s.replies + [InfoReply(running, s.client.Some?)])
  }

  function OnCommand(c: Config, s: State, cmd: SessionCommand, busy: bool, now: nat): (r: State)
    requires InRange(s)
    ensures InRange(r)
  {
    match cmd
    case Input(bytes) => OnInput(s, bytes)
    case Info => OnInfo(c, s, busy)
    case Resize(cols, rows) => Sized(s, cols, rows)
    case Close(graceMs) => OnClose(s, graceMs, now)
    case Attach(req) => OnAttach(c, s, req, busy)
  }

  /** The drain: bytes reach the engine, and end of file reaps the shell. */
  function Absorb(s: State, bytes: seq<byte>, exit: Option<int>): State {
    s.(
      drained := s.drained + bytes,
      output := s.output + DataFrames(bytes),
      life := if exit.Some? then Dead(exit.value) else s.life)
  }

  /** After the data, an attached client hears of a changed status. */
  function Report(c: Config, s: State, busy: bool): (r: State)
    requires InRange(s)
    ensures InRange(r)
  {
    if s.client.None? then s
    else PushStatus(c, if !Marked(c, s) && s.life.Live? then s.(pollRunning := busy) else s)
  }

  /** The shell's end: EXIT, then leave after a CLOSE, or keep the session for a reattach. */
  function Finish(c: Config, s: State, code: int, now: nat): (r: State)
    requires InRange(s)
    ensures InRange(r)
  {
    var t := PushOrDrop(s, ExitFrame(code));
    if t.closing then t.(left := Some(ReapedAfterClose)) else t.(grace := Some(now + c.deadGrace))
  }

  function OnReadable(c: Config, s: State, bytes: seq<byte>, exit: Option<int>, busy: bool, now: nat): (r: State)
    requires InRange(s)
    ensures InRange(r)
  {
    var t := Report(c, Forward(Absorb(s, bytes, exit), DataFrames(bytes)), busy);
    if exit.Some? then Finish(c, t, exit.value, now) else t
  }

  /** A failed drain ends the loop at once; the client's sender goes with it, and is sent nothing any more. */
  function OnReadFailed(s: State, bytes: seq<byte>): (r: State)
    ensures InRange(r)
  {
    Absorb(s, bytes, None).(client := None, left := Some(IoFailed))
  }

  predicate Enabled(c: Config, s: State, e: Event) {
    && s.left.None?
    && match e
       case Commanded(_, _, _) => true
       case SendersGone => true
       case Readable(_, _, _, _) => s.life.Live?
       case ReadFailed(_) => s.life.Live?
       case GraceElapsed(now) => s.grace.Some? && s.grace.value <= now
       case KillElapsed(now) => s.kill.Some? && s.kill.value <= now
       case PollTick(_) => s.client.Some? && s.life.Live? && !Marked(c, s)
  }

  /** One turn of the loop. An event that no arm is waiting for does nothing. */
  function Step(c: Config, s: State, e: Event): (r: State)
    requires InRange(s)
    ensures InRange(r)
  {
    if !Enabled(c, s, e) then s
    else
      match e
      case Commanded(cmd, busy, now) => OnCommand(c, s, cmd, busy, now)
      case SendersGone => s.(left := Some(ChannelGone))
      case Readable(bytes, exit, busy, now) => OnReadable(c, s, bytes, exit, busy, now)
      case ReadFailed(bytes) => OnReadFailed(s, bytes)
      case GraceElapsed(_) => s.(left := Some(GraceOver))
      case KillElapsed(now) => Signalled(s, Kill(now, s.kill.value)).(kill := None)
      case PollTick(busy) => PushStatus(c, s.(pollRunning := busy))
  }

  /** The state after a sequence of events, from a freshly opened session. */
  function Run(c: Config, es: seq<Event>): (r: State)
    ensures InRange(r)
  {
    if es == [] then Opened(c.size) else Step(c, Run(c, Init(es)), Last(es))
  }
}
