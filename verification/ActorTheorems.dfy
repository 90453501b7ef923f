/** What the actor guarantees over every run: how it ends, whom it signals, and what each client is sent. */
module ActorTheorems {
  import opened Bytes
  import opened ActorCommands
  import opened Actor
  import P = Protocol

  // ------------------------------------------------ lifecycle and signals

  function Kills(signals: seq<Signal>): nat {
    if signals == [] then 0 else Kills(Init(signals)) + if Last(signals).Kill? then 1 else 0
  }

  /** Every SIGKILL comes after a SIGHUP, and not before the deadline it answers, which some CLOSE armed. */
  ghost predicate KillsJustified(signals: seq<Signal>, armed: seq<nat>) {
    forall i :: 0 <= i < |signals| && signals[i].Kill? ==>
      Hup in signals[..i] && signals[i].due <= signals[i].at && signals[i].due in armed
  }

  ghost predicate Escalation(s: State) {
    && (s.left.None? ==> (s.life.Dead? <==> s.grace.Some?) && (s.closing ==> s.life.Live?))
    && (s.kill.Some? ==> s.closing && s.armed != [] && s.kill.value == Last(s.armed))
    && (s.closing && s.life.Live? ==> Hup in s.signals)
    && Kills(s.signals) + (if s.kill.Some? then 1 else 0) <= |s.armed|
    && KillsJustified(s.signals, s.armed)
  }

  /** With a sender alive, the loop is left over a live shell exactly on an I/O error. */
  ghost predicate LeftWhenDead(s: State) {
    s.left.Some? && s.left.value != ChannelGone ==> (s.life.Live? <==> s.left.value == IoFailed)
  }

  lemma SignalledKeeps(s: State, signal: Signal)
    requires KillsJustified(s.signals, s.armed)
    requires signal.Kill? ==> Hup in s.signals && signal.due <= signal.at && signal.due in s.armed
    ensures var r := Signalled(s, signal);
            && KillsJustified(r.signals, r.armed)
            && (Hup in s.signals ==> Hup in r.signals)
            && (signal.Hup? && s.life.Live? ==> Hup in r.signals)
            && Kills(r.signals) == Kills(s.signals) + if s.life.Live? && signal.Kill? then 1 else 0
  {
    var r := Signalled(s, signal);
    if s.life.Live? {
      assert Init(r.signals) == s.signals && Last(r.signals) == signal;
      forall i | 0 <= i < |r.signals| && r.signals[i].Kill?
        ensures Hup in r.signals[..i]
      {
        assert i < |s.signals| ==> r.signals[..i] == s.signals[..i];
        assert i == |s.signals| ==> r.signals[..i] == s.signals;
      }
    }
  }

  /** Pushing frames touches the queues and the client only. */
  ghost predicate OnlyQueues(s: State, r: State) {
    r == s.(queues := r.queues, client := r.client)
  }

  lemma {:induction false} ForwardTouchesQueues(s: State, fs: seq<OutFrame>)
    requires InRange(s)
    ensures OnlyQueues(s, Forward(s, fs))
  {
    if fs != [] {
      ForwardTouchesQueues(s, Init(fs));
    }
  }

  lemma ArmedGrows(signals: seq<Signal>, armed: seq<nat>, deadline: nat)
    requires KillsJustified(signals, armed)
    ensures KillsJustified(signals, armed + [deadline])
  {
  }

  lemma CloseEscalates(s: State, graceMs: nat, now: nat)
    requires InRange(s) && s.left.None? && Escalation(s)
    ensures Escalation(OnClose(s, graceMs, now)) && LeftWhenDead(OnClose(s, graceMs, now))
  {
    hide KillsJustified, Kills;
    SignalledKeeps(s, Hup);
    var s1 := Signalled(s, Hup);
    ArmedGrows(s1.signals, s1.armed, now + graceMs);
  }

  lemma AttachEscalates(c: Config, s: State, req: AttachRequest, busy: bool)
    requires s.left.None? && Escalation(s)
    ensures Escalation(OnAttach(c, s, req, busy)) && LeftWhenDead(OnAttach(c, s, req, busy))
  {
    hide KillsJustified, Kills;
    var s1 := Refreshed(c, s, busy);
    SignalledKeeps(s1, Winch);
  }

  lemma ReadableEscalates(c: Config, s: State, bytes: seq<byte>, exit: Option<int>, busy: bool, now: nat)
    requires InRange(s) && s.left.None? && s.life.Live? && Escalation(s)
    ensures var r := OnReadable(c, s, bytes, exit, busy, now); Escalation(r) && LeftWhenDead(r)
  {
    hide KillsJustified, Kills, Forward, PushOrDrop;
    ForwardTouchesQueues(Absorb(s, bytes, exit), DataFrames(bytes));
    var t := Report(c, Forward(Absorb(s, bytes, exit), DataFrames(bytes)), busy);
    ReportTouchesStatus(c, Forward(Absorb(s, bytes, exit), DataFrames(bytes)), busy);
    if exit.Some? {
      PushTouchesQueues(t, ExitFrame(exit.value));
    }
  }

  lemma PushTouchesQueues(s: State, f: OutFrame)
    requires InRange(s)
    ensures OnlyQueues(s, PushOrDrop(s, f))
  {
  }

  lemma ReportTouchesStatus(c: Config, s: State, busy: bool)
    requires InRange(s)
    ensures var r := Report(c, s, busy);
            r == s.(queues := r.queues, client := r.client, lastStatus := r.lastStatus, pollRunning := r.pollRunning)
  {
  }

  lemma StepEscalates(c: Config, s: State, e: Event)
    requires InRange(s) && Escalation(s) && LeftWhenDead(s)
    ensures Escalation(Step(c, s, e)) && LeftWhenDead(Step(c, s, e))
  {
    hide KillsJustified, Kills, OnClose, OnAttach, OnReadable, PushStatus;
    if Enabled(c, s, e) {
      match e {
        case Commanded(cmd, busy, now) =>
          match cmd {
            case Close(graceMs) => CloseEscalates(s, graceMs, now);
            case Attach(req) => AttachEscalates(c, s, req, busy);
            case Resize(_, _) => SignalledKeeps(s, Winch);
            case _ =>
          }
        case Readable(bytes, exit, busy, now) =>
          ReadableEscalates(c, s, bytes, exit, busy, now);
        case KillElapsed(now) =>
          SignalledKeeps(s, Kill(now, s.kill.value));
        case PollTick(busy) =>
          PollTouchesStatus(c, s.(pollRunning := busy));
        case _ =>
      }
    }
  }

  lemma PollTouchesStatus(c: Config, s: State)
    requires InRange(s)
    ensures var r := PushStatus(c, s); r == s.(queues := r.queues, client := r.client, lastStatus := r.lastStatus)
  {
  }

  /** In every run: how the two deadlines, `closing` and the shell's life hang together, and when SIGKILL is sent. */
  lemma {:induction false} EscalationHolds(c: Config, es: seq<Event>)
    ensures Escalation(Run(c, es)) && LeftWhenDead(Run(c, es))
  {
    hide Step, Escalation;
    if es == [] {
      OpenedEscalates(c.size);
    } else {
      EscalationHolds(c, Init(es));
      StepEscalates(c, Run(c, Init(es)), Last(es));
    }
  }

  lemma OpenedEscalates(size: (u16, u16))
    ensures Escalation(Opened(size)) && LeftWhenDead(Opened(size))
  {
  }

  lemma ReadableSignalsNobody(c: Config, s: State, bytes: seq<byte>, exit: Option<int>, busy: bool, now: nat)
    requires InRange(s)
    ensures OnReadable(c, s, bytes, exit, busy, now).signals == s.signals
  {
    hide Forward, Report, PushOrDrop;
    var t := Forward(Absorb(s, bytes, exit), DataFrames(bytes));
    ForwardTouchesQueues(Absorb(s, bytes, exit), DataFrames(bytes));
    ReportTouchesStatus(c, t, busy);
    if exit.Some? {
      PushTouchesQueues(Report(c, t, busy), ExitFrame(exit.value));
    }
  }

  lemma CommandSignals(c: Config, s: State, cmd: SessionCommand, busy: bool, now: nat)
    requires InRange(s)
    ensures var r := OnCommand(c, s, cmd, busy, now);
            || r.signals == s.signals
            || (s.life.Live? && (r.signals == s.signals + [Winch] || r.signals == s.signals + [Hup]))
  {
    hide Effective, Handshake, OfferAll, Marked, PushOrDrop;
    match cmd {
      case Close(graceMs) =>
        PushTouchesQueues(Hangup(s, graceMs, now), ExitFrame(if s.life.Dead? then s.life.status else 0));
      case _ =>
    }
  }

  lemma StepSignals(c: Config, s: State, e: Event)
    requires InRange(s)
    ensures var r := Step(c, s, e);
            || r.signals == s.signals
            || (s.life.Live? && (r.signals == s.signals + [Winch] || r.signals == s.signals + [Hup]))
            || (s.life.Live? && e.KillElapsed? && s.kill.Some? && s.kill.value <= e.now
                && r.signals == s.signals + [Kill(e.now, s.kill.value)])
  {
    hide OnReadable, OnCommand, PushStatus, Marked;
    match e {
      case Readable(bytes, exit, busy, now) => ReadableSignalsNobody(c, s, bytes, exit, busy, now);
      case Commanded(cmd, busy, now) => CommandSignals(c, s, cmd, busy, now);
      case PollTick(busy) => PollTouchesStatus(c, s.(pollRunning := busy));
      case _ =>
    }
  }

  /** No step signals a dead session, and a SIGKILL answers the most recently armed deadline. */
  lemma SignalsAreTimely(c: Config, es: seq<Event>, e: Event)
    ensures var s := Run(c, es);
            var r := Step(c, s, e);
            && (s.life.Dead? ==> r.signals == s.signals)
            && (Kills(r.signals) > Kills(s.signals) ==>
                  && e.KillElapsed? && s.closing && s.armed != []
                  && Last(s.armed) <= e.now && r.signals == s.signals + [Kill(e.now, Last(s.armed))])
  {
    hide KillsJustified, Step;
    var s := Run(c, es);
    EscalationHolds(c, es);
    StepSignals(c, s, e);
    assert Init(s.signals + [Hup]) == s.signals && Init(s.signals + [Winch]) == s.signals;
  }

  // -------------------------------------------------- commands and effects

  predicate IsGracefulClose(e: Event) {
    e.Commanded? && e.cmd.Close? && e.cmd.graceMs > 0
  }

  function GracefulCloses(es: seq<Event>): nat {
    if es == [] then 0 else GracefulCloses(Init(es)) + if IsGracefulClose(Last(es)) then 1 else 0
  }

  function InputOf(e: Event): seq<seq<byte>> {
    if e.Commanded? && e.cmd.Input? then [e.cmd.bytes] else []
  }

  /** A step over which nothing more can be typed: the loop is left, or the shell dead. */
  predicate Over(s: State) {
    s.left.Some? || s.life.Dead?
  }

  lemma AttachEffects(c: Config, s: State, req: AttachRequest, busy: bool)
    ensures var r := OnAttach(c, s, req, busy);
            && r.armed == s.armed && r.writes == s.writes && r.life == s.life && (r.left.None? ==> s.left.None?)
            && r.drained == s.drained && r.output == s.output
  {
    hide Effective, Handshake, OfferAll, Marked;
  }

  lemma CloseEffects(s: State, graceMs: nat, now: nat)
    requires InRange(s)
    ensures var r := OnClose(s, graceMs, now);
            && r.armed == s.armed + (if graceMs > 0 then [now + graceMs] else [])
            && r.writes == s.writes && r.life == s.life && (r.left.None? ==> s.left.None?)
            && r.drained == s.drained && r.output == s.output
  {
    hide PushOrDrop;
    PushTouchesQueues(Hangup(s, graceMs, now), ExitFrame(if s.life.Dead? then s.life.status else 0));
  }

  lemma CommandEffects(c: Config, s: State, cmd: SessionCommand, busy: bool, now: nat)
    requires InRange(s)
    ensures var r := OnCommand(c, s, cmd, busy, now);
            && r.armed == s.armed + (if cmd.Close? && cmd.graceMs > 0 then [now + cmd.graceMs] else [])
            && r.writes == s.writes + (if cmd.Input? && s.life.Live? then [cmd.bytes] else [])
            && r.life == s.life && (r.left.None? ==> s.left.None?)
            && r.drained == s.drained && r.output == s.output
  {
    hide OnAttach, OnClose;
    match cmd {
      case Close(graceMs) => CloseEffects(s, graceMs, now);
      case Attach(req) => AttachEffects(c, s, req, busy);
      case _ =>
    }
  }

  lemma ReadableEffects(c: Config, s: State, bytes: seq<byte>, exit: Option<int>, busy: bool, now: nat)
    requires InRange(s)
    ensures var r := OnReadable(c, s, bytes, exit, busy, now);
            && r.armed == s.armed && r.writes == s.writes
            && r.life == (if exit.Some? then Dead(exit.value) else s.life) && (r.left.None? ==> s.left.None?)
            && r.drained == s.drained + bytes && r.output == s.output + DataFrames(bytes)
  {
    hide Forward, Report, PushOrDrop, DataFrames;
    var t := Forward(Absorb(s, bytes, exit), DataFrames(bytes));
    ForwardTouchesQueues(Absorb(s, bytes, exit), DataFrames(bytes));
    ReportTouchesStatus(c, t, busy);
    if exit.Some? {
      PushTouchesQueues(Report(c, t, busy), ExitFrame(exit.value));
    }
  }

  /** The bytes that a step feeds to the engine. */
  function Fed(c: Config, s: State, e: Event): seq<byte> {
    if !Enabled(c, s, e) then []
    else if e.Readable? || e.ReadFailed? then e.bytes
    else []
  }

  lemma StepEffects(c: Config, s: State, e: Event)
    requires InRange(s)
    ensures var r := Step(c, s, e);
            && |r.armed| <= |s.armed| + (if IsGracefulClose(e) then 1 else 0)
            && r.writes == s.writes + (if Over(s) then [] else InputOf(e))
            && (Over(s) ==> Over(r))
            && r.drained == s.drained + Fed(c, s, e)
            && r.output == s.output + DataFrames(Fed(c, s, e))
  {
    NoFrames();
    hide OnReadable, OnCommand, PushStatus, Marked, DataFrames;
    match e {
      case Readable(bytes, exit, busy, now) => ReadableEffects(c, s, bytes, exit, busy, now);
      case Commanded(cmd, busy, now) => CommandEffects(c, s, cmd, busy, now);
      case PollTick(busy) => PollTouchesStatus(c, s.(pollRunning := busy));
      case _ =>
    }
  }

  lemma NoFrames()
    ensures DataFrames([]) == []
  {
  }

  /** SIGKILLs are at most as many as the CLOSEs with a grace. */
  lemma {:induction false} KillsAreBounded(c: Config, es: seq<Event>)
    ensures Kills(Run(c, es).signals) <= |Run(c, es).armed| <= GracefulCloses(es)
  {
    EscalationHolds(c, es);
    if es != [] {
      hide Step, KillsJustified;
      KillsAreBounded(c, Init(es));
      StepEffects(c, Run(c, Init(es)), Last(es));
    }
  }

  /**
   * The writes to the shell are the INPUTs sent, in order, each as one write: all of them while the shell
   * lives and the loop runs, and none that comes after.
   */
  lemma {:induction false} InputIsForwarded(c: Config, es: seq<Event>)
    ensures Run(c, es).writes <= Gather(InputOf, es)
    ensures !Over(Run(c, es)) ==> Run(c, es).writes == Gather(InputOf, es)
  {
    if es != [] {
      hide Step;
      InputIsForwarded(c, Init(es));
      StepEffects(c, Run(c, Init(es)), Last(es));
    }
  }
}
