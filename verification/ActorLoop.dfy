/** The actor loop itself, over a real scanner; every arm is proved to take the state machine's step. */
module ActorLoop {
  import opened Bytes
  import opened Scanner
  import opened ActorCommands
  import opened Actor

  /** The engine that a scanner implements. */
  function EngineOf<P>(step: ParserStep<P>, start: P, watermark: nat): Engine {
    Engine(raw => StatusOf(step, start, raw), (raw, want) => ReplayedBytes(step, start, watermark, raw, want))
  }

  class ActorLoop<!P> {
    const scanner: Scanner<P>
    const outQueue: nat
    const deadGrace: nat
    const openSize: (u16, u16)
    var life: Lifecycle
    var size: (u16, u16)
    var client: Option<nat>
    var queues: seq<Queue>
    var lastStatus: Option<Snapshot>
    var pollRunning: bool
    var grace: Option<nat>
    var closing: bool
    var kill: Option<nat>
    var left: Option<Reason>
    ghost var attaches: seq<AttachRecord>
    ghost var signals: seq<Signal>
    ghost var armed: seq<nat>
    ghost var output: seq<OutFrame>
    var writes: seq<seq<byte>>
    var replies: seq<InfoReply>

    ghost function Conf(): Config {
      Config(EngineOf(scanner.step, scanner.start, scanner.ring.watermark), outQueue, deadGrace, openSize)
    }

    ghost function View(): State
      reads this, scanner`raw
    {
      State(scanner.raw, life, size, client, queues, lastStatus, pollRunning, grace, closing, kill, left,
            attaches, signals, armed, output, writes, replies)
    }

    ghost predicate Valid()
      reads this, scanner, scanner.sink, scanner.sink.sticky, scanner.ring
    {
      scanner.Valid() && InRange(View())
    }

    constructor (scanner: Scanner<P>, outQueue: nat, deadGrace: nat, openSize: (u16, u16))
      requires scanner.Valid() && scanner.raw == []
      ensures Valid() && View() == Opened(openSize)
      ensures this.scanner == scanner && this.outQueue == outQueue && this.deadGrace == deadGrace
      ensures this.openSize == openSize
    {
      this.scanner, this.outQueue, this.deadGrace, this.openSize := scanner, outQueue, deadGrace, openSize;
      size := openSize;
      life, client, queues, lastStatus, pollRunning := Live, None, [], None, false;
      grace, closing, kill, left := None, false, None, None;
      attaches, signals, armed, output, writes, replies := [], [], [], [], [], [];
    }

    method EffectiveStatus() returns (eff: Snapshot)
      requires Valid()
      ensures eff == Effective(Conf(), View())
    {
      hide Scanner.Valid, StatusOf, ReplayedBytes;
      var status := scanner.ShellStatus();
      eff := Snapshot(if status.marked then status.running else pollRunning, status.progress);
    }

    method HasPromptMarking() returns (marked: bool)
      requires Valid()
      ensures marked == Marked(Conf(), View())
    {
      hide Scanner.Valid, StatusOf, ReplayedBytes;
      var status := scanner.ShellStatus();
      marked := status.marked;
    }

    method Push(f: OutFrame)
      requires Valid()
      modifies this`client, this`queues
      ensures Valid() && View() == PushOrDrop(old(View()), f)
    {
      if client.Some? {
        var k := client.value;
        var ok := Accepts(queues[k]);
        queues := queues[k := TrySend(queues[k], f)];
        if !ok {
          client := None;
        }
      }
    }

    method ForwardData(data: seq<byte>)
      requires Valid()
      modifies this`client, this`queues
      ensures Valid() && View() == Forward(old(View()), DataFrames(data))
    {
      ghost var before := View();
      var frames := DataFrames(data);
      for i := 0 to |frames|
        modifies this`client, this`queues
        invariant Valid() && View() == Forward(before, frames[..i])
      {
        assert Init(frames[..i + 1]) == frames[..i];
        Push(frames[i]);
      }
      assert frames[..|frames|] == frames;
    }

    method SendStatus()
      requires Valid()
      modifies this`client, this`queues, this`lastStatus
      ensures Valid() && View() == PushStatus(Conf(), old(View()))
    {
      hide Scanner.Valid, StatusOf, ReplayedBytes;
      var eff := EffectiveStatus();
      if lastStatus != Some(eff) {
        Push(StatusFrame(eff));
        lastStatus := Some(eff);
      }
    }

    ghost method Record(signal: Signal)
      requires Valid()
      modifies this`signals
      ensures Valid() && View() == Signalled(old(View()), signal)
    {
      if life.Live? {
        signals := signals + [signal];
      }
    }

    method SetSize(cols: u16, rows: u16)
      requires Valid()
      modifies this`size, this`signals
      ensures Valid() && View() == Sized(old(View()), cols, rows)
    {
      size := (cols, rows);
      Record(Winch);
    }

    /** The handshake: replay, then STATUS, then EXIT for a dead session; failed sends are ignored. */
    method Offer(req: AttachRequest) returns (q: Queue)
      requires Valid()
      ensures q == OfferAll(NewQueue(outQueue, req.consumer), Handshake(Conf(), View(), req.wantChunks))
    {
      hide Scanner.Valid, StatusOf, ReplayedBytes, DataFrames, TrySend;
      var data := scanner.Replay(Depth(req.wantChunks));
      var frames := DataFrames(data);
      q := NewQueue(outQueue, req.consumer);
      for i := 0 to |frames|
        invariant q == OfferAll(NewQueue(outQueue, req.consumer), frames[..i])
      {
        assert Init(frames[..i + 1]) == frames[..i];
        q := TrySend(q, frames[i]);
      }
      assert frames[..|frames|] == frames;
      var eff := EffectiveStatus();
      assert Init(frames + [StatusFrame(eff)]) == frames;
      q := TrySend(q, StatusFrame(eff));
      if life.Dead? {
        assert Init(Handshake(Conf(), View(), req.wantChunks)) == frames + [StatusFrame(eff)];
        q := TrySend(q, ExitFrame(life.status));
      } else {
        assert Handshake(Conf(), View(), req.wantChunks) == frames + [StatusFrame(eff)];
      }
    }

    method BindClient(req: AttachRequest)
      requires Valid()
      modifies this`client, this`queues, this`attaches, this`signals, this`size
      ensures Valid() && View() == AttachClient(Conf(), old(View()), req)
    {
      hide Scanner.Valid, StatusOf, ReplayedBytes, OfferAll, Handshake;
      ghost var handshake := Handshake(Conf(), View(), req.wantChunks);
      var q := Offer(req);
      SetSize(req.cols, req.rows);
      attaches := attaches + [AttachRecord(req.wantChunks, handshake, |scanner.raw|, |output|)];
      queues, client := queues + [q], Some(|queues|);
    }

    method RequestHangup(graceMs: nat, now: nat)
      requires Valid()
      modifies this`signals, this`closing, this`kill, this`armed
      ensures Valid() && View() == Hangup(old(View()), graceMs, now)
    {
      hide Scanner.Valid, StatusOf, ReplayedBytes;
      Record(Hup);
      closing := true;
      if graceMs > 0 {
        kill := Some(now + graceMs);
        armed := armed + [now + graceMs];
      }
    }

    method OnClose(graceMs: nat, now: nat)
      requires Valid() && left.None?
      modifies this
      ensures Valid() && View() == Actor.OnClose(old(View()), graceMs, now)
    {
      hide Scanner.Valid, StatusOf, ReplayedBytes, PushOrDrop, Hangup;
      RequestHangup(graceMs, now);
      if life.Dead? {
        // The shell ended before this command came: there is nothing to wait for.
        Push(ExitFrame(life.status));
        client, left := None, Some(ClosedWhenDead);
      }
    }

    /** Before prompt marking, the poll's answer at the attach is the one to report. */
    method RefreshPoll(busy: bool)
      requires Valid()
      modifies this`pollRunning
      ensures Valid() && View() == Refreshed(Conf(), old(View()), busy)
    {
      hide Scanner.Valid, StatusOf, ReplayedBytes, Marked;
      var marked := HasPromptMarking();
      if !marked {
        pollRunning := life.Live? && busy;
      }
    }

    /** The new client has just been sent the status. */
    method RecordStatus()
      requires Valid()
      modifies this`lastStatus
      ensures Valid() && View() == old(View()).(lastStatus := Some(Effective(Conf(), old(View()))))
    {
      hide Scanner.Valid, StatusOf, ReplayedBytes, Effective;
      var eff := EffectiveStatus();
      lastStatus := Some(eff);
    }

    method OnAttach(req: AttachRequest, busy: bool)
      requires Valid() && left.None?
      modifies this
      ensures Valid() && View() == Actor.OnAttach(Conf(), old(View()), req, busy)
    {
      hide Scanner.Valid, StatusOf, ReplayedBytes, AttachClient, Effective, Marked, EngineOf, Refreshed;
      RefreshPoll(busy);
      BindClient(req);
      RecordStatus();
      if life.Dead? {
        left := Some(AttachedWhenDead);
      }
    }

    method SendInfo(busy: bool)
      requires Valid()
      modifies this`replies
      ensures Valid() && View() == OnInfo(Conf(), old(View()), busy)
    {
      hide Scanner.Valid, StatusOf, ReplayedBytes;
      var running := false;
      if life.Live? {
        var status := scanner.ShellStatus();
        running := if status.marked then status.running else busy;
      }
      replies := replies + [InfoReply(running, client.Some?)];
    }

    method OnCommand(cmd: SessionCommand, busy: bool, now: nat)
      requires Valid() && left.None?
      modifies this
      ensures Valid() && View() == Actor.OnCommand(Conf(), old(View()), cmd, busy, now)
    {
      hide Scanner.Valid, StatusOf, ReplayedBytes, Actor.OnClose, Actor.OnAttach;
      match cmd {
        case Input(bytes) =>
          if life.Live? {
            writes := writes + [bytes];
          }
        case Info =>
          SendInfo(busy);
        case Resize(cols, rows) =>
          SetSize(cols, rows);
        case Close(graceMs) =>
          OnClose(graceMs, now);
        case Attach(req) =>
          OnAttach(req, busy);
      }
    }

    method ReportStatus(busy: bool)
      requires Valid()
      modifies this`client, this`queues, this`lastStatus, this`pollRunning
      ensures Valid() && View() == Report(Conf(), old(View()), busy)
    {
      hide Scanner.Valid, StatusOf, ReplayedBytes, PushStatus, Marked;
      if client.Some? {
        var marked := HasPromptMarking();
        if !marked && life.Live? {
          pollRunning := busy;
        }
        SendStatus();
      }
    }

    method FinishSession(code: int, now: nat)
      requires Valid()
      modifies this`client, this`queues, this`left, this`grace
      ensures Valid() && View() == Finish(Conf(), old(View()), code, now)
    {
      hide Scanner.Valid, StatusOf, ReplayedBytes, PushOrDrop;
      Push(ExitFrame(code));
      if closing {
        left := Some(ReapedAfterClose);
      } else {
        grace := Some(now + deadGrace);
      }
    }

    method OnReadable(bytes: seq<byte>, exit: Option<int>, busy: bool, now: nat)
      requires Valid() && left.None? && life.Live?
      modifies this, scanner, scanner.sink, scanner.sink.sticky, scanner.ring
      ensures Valid() && View() == Actor.OnReadable(Conf(), old(View()), bytes, exit, busy, now)
    {
      hide Scanner.Valid, StatusOf, ReplayedBytes, Forward, Report, Finish, DataFrames;
      scanner.Feed(bytes);
      output := output + DataFrames(bytes);
      if exit.Some? {
        life := Dead(exit.value);
      }
      ForwardData(bytes);
      ReportStatus(busy);
      if exit.Some? {
        FinishSession(exit.value, now);
      }
    }

    method OnReadFailed(bytes: seq<byte>)
      requires Valid() && left.None? && life.Live?
      modifies this, scanner, scanner.sink, scanner.sink.sticky, scanner.ring
      ensures Valid() && View() == Actor.OnReadFailed(old(View()), bytes)
    {
      hide Scanner.Valid, StatusOf, ReplayedBytes, DataFrames;
      scanner.Feed(bytes);
      output := output + DataFrames(bytes);
      client, left := None, Some(IoFailed);
    }

    /** The kill deadline: it is answered once. */
    method OnKillDeadline(now: nat)
      requires Valid() && kill.Some?
      modifies this`signals, this`kill
      ensures Valid() && View() == Signalled(old(View()), Kill(now, old(kill).value)).(kill := None)
    {
      hide Scanner.Valid, StatusOf, ReplayedBytes;
      Record(Kill(now, kill.value));
      kill := None;
    }

    method OnPoll(busy: bool)
      requires Valid()
      modifies this`client, this`queues, this`lastStatus, this`pollRunning
      ensures Valid() && View() == PushStatus(Conf(), old(View()).(pollRunning := busy))
    {
      hide Scanner.Valid, StatusOf, ReplayedBytes, PushStatus;
      pollRunning := busy;
      SendStatus();
    }

    /** One turn of the loop: whichever arm the event is for, if that arm is waiting. */
    method Turn(e: Event)
      requires Valid() && left.None?
      modifies this, scanner, scanner.sink, scanner.sink.sticky, scanner.ring
      ensures Valid() && View() == Step(Conf(), old(View()), e)
    {
      hide Scanner.Valid, StatusOf, ReplayedBytes, Marked, EngineOf, PushStatus, Signalled;
      hide Actor.OnCommand, Actor.OnReadable, Actor.OnReadFailed;
      match e {
        case Commanded(cmd, busy, now) =>
          OnCommand(cmd, busy, now);
        case SendersGone =>
          left := Some(ChannelGone);
        case Readable(bytes, exit, busy, now) =>
          if life.Live? {
            OnReadable(bytes, exit, busy, now);
          }
        case ReadFailed(bytes) =>
          if life.Live? {
            OnReadFailed(bytes);
          }
        case GraceElapsed(now) =>
          if grace.Some? && grace.value <= now {
            left := Some(GraceOver);
          }
        case KillElapsed(now) =>
          if kill.Some? && kill.value <= now {
            OnKillDeadline(now);
          }
        case PollTick(busy) =>
          var marked := HasPromptMarking();
          if client.Some? && life.Live? && !marked {
            OnPoll(busy);
          }
      }
    }

    /** The loop, driven by the environment's events until it is left. */
    method Loop(events: seq<Event>)
      requires Valid() && View() == Opened(openSize)
      modifies this, scanner, scanner.sink, scanner.sink.sticky, scanner.ring
      ensures Valid() && View() == Run(Conf(), events)
    {
      hide Scanner.Valid, StatusOf, ReplayedBytes;
      var i := 0;
      while i < |events| && left.None?
        modifies this, scanner, scanner.sink, scanner.sink.sticky, scanner.ring
        invariant 0 <= i <= |events|
        invariant Valid() && View() == Run(Conf(), events[..i])
      {
        assert Init(events[..i + 1]) == events[..i];
        Turn(events[i]);
        i := i + 1;
      }
      NothingAfterLeaving(Conf(), events, i);
    }
  }

  /** Once the loop is left, no event changes anything. */
  lemma {:induction false} NothingAfterLeaving(c: Config, events: seq<Event>, i: nat)
    requires i <= |events|
    requires i == |events| || Run(c, events[..i]).left.Some?
    ensures Run(c, events) == Run(c, events[..i])
    decreases |events|
  {
    if i < |events| {
      assert Init(events)[..i] == events[..i];
      NothingAfterLeaving(c, Init(events), i);
    } else {
      assert events[..i] == events;
    }
  }
}
