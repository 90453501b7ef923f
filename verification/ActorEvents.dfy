/**
 * The actor told from outside: which signals its shell gets, what size it has, when it is dead and when its loop
 * ends, over the events of a run and no field of its own.
 */
module ActorEvents {
  import opened Bytes
  import opened ActorCommands
  import opened Actor
  import opened ActorTheorems

  // -------------------------------------------------- what each arm does

  lemma AttachCore(c: Config, s: State, req: AttachRequest, busy: bool)
    ensures var r := OnAttach(c, s, req, busy);
            && r.size == (req.cols, req.rows) && r.life == s.life && r.grace == s.grace
            && r.closing == s.closing && r.kill == s.kill
            && r.left == (if s.life.Dead? then Some(AttachedWhenDead) else s.left)
            && r.signals == s.signals + (if s.life.Live? then [Winch] else [])
  {
    hide Effective, Handshake, OfferAll, Marked;
  }

  lemma CloseCore(s: State, graceMs: nat, now: nat)
    requires InRange(s)
    ensures var r := OnClose(s, graceMs, now);
            && r.size == s.size && r.life == s.life && r.grace == s.grace && r.closing
            && r.kill == (if graceMs > 0 then Some(now + graceMs) else s.kill)
            && r.left == (if s.life.Dead? then Some(ClosedWhenDead) else s.left)
            && r.signals == s.signals + (if s.life.Live? then [Hup] else [])
  {
    hide PushOrDrop;
    PushTouchesQueues(Hangup(s, graceMs, now), ExitFrame(if s.life.Dead? then s.life.status else 0));
  }

  lemma ReadableCore(c: Config, s: State, bytes: seq<byte>, exit: Option<int>, busy: bool, now: nat)
    requires InRange(s)
    ensures var r := OnReadable(c, s, bytes, exit, busy, now);
            && r.size == s.size && r.closing == s.closing && r.kill == s.kill && r.signals == s.signals
            && r.life == (if exit.Some? then Dead(exit.value) else s.life)
            && r.grace == (if exit.Some? && !s.closing then Some(now + c.deadGrace) else s.grace)
            && r.left == (if exit.Some? && s.closing then Some(ReapedAfterClose) else s.left)
  {
    hide Forward, Report, PushOrDrop, DataFrames;
    var t := Forward(Absorb(s, bytes, exit), DataFrames(bytes));
    ForwardTouchesQueues(Absorb(s, bytes, exit), DataFrames(bytes));
    ReportTouchesStatus(c, t, busy);
    if exit.Some? {
      PushTouchesQueues(Report(c, t, busy), ExitFrame(exit.value));
    }
  }

  predicate IsClose(e: Event) {
    e.Commanded? && e.cmd.Close?
  }

  predicate IsResize(e: Event) {
    e.Commanded? && (e.cmd.Resize? || e.cmd.Attach?)
  }

  /** The size that a resize or an attach asks for. */
  function SizeIn(e: Event): (u16, u16)
    requires IsResize(e)
  {
    if e.cmd.Resize? then (e.cmd.cols, e.cmd.rows) else (e.cmd.req.cols, e.cmd.req.rows)
  }

  predicate IsExit(e: Event) {
    e.Readable? && e.exit.Some?
  }

  /** One turn of a running loop, but for what it sends to clients. */
  predicate CoreOf(c: Config, s: State, e: Event, r: State) {
    var fires := e.KillElapsed? && s.kill.Some? && s.kill.value <= e.now;
    && r.size == (if IsResize(e) then SizeIn(e) else s.size)
    && r.closing == (s.closing || IsClose(e))
    && r.life == (if s.life.Live? && IsExit(e) then Dead(e.exit.value) else s.life)
    && r.grace == (if s.life.Live? && IsExit(e) && !s.closing then Some(e.now + c.deadGrace) else s.grace)
    && r.kill == (if IsGracefulClose(e) then Some(e.now + e.cmd.graceMs) else if fires then None else s.kill)
    && (r.left.Some? <==>
          || e.SendersGone?
          || (s.life.Live? && (e.ReadFailed? || (IsExit(e) && s.closing)))
          || (s.life.Dead? && (IsClose(e) || (e.Commanded? && e.cmd.Attach?)))
          || (e.GraceElapsed? && s.grace.Some? && s.grace.value <= e.now))
    && r.signals == s.signals + if s.life.Dead? then []
                                else if IsClose(e) then [Hup]
                                else if IsResize(e) then [Winch]
                                else if fires then [Kill(e.now, s.kill.value)]
                                else []
  }

  lemma CommandCore(c: Config, s: State, e: Event)
    requires InRange(s) && s.left.None? && e.Commanded?
    ensures CoreOf(c, s, e, Step(c, s, e))
  {
    hide OnAttach, OnClose;
    match e.cmd {
      case Close(graceMs) => CloseCore(s, graceMs, e.now);
      case Attach(req) => AttachCore(c, s, req, e.busy);
      case _ =>
    }
  }

  lemma StepCore(c: Config, s: State, e: Event)
    requires InRange(s) && s.left.None?
    ensures CoreOf(c, s, e, Step(c, s, e))
  {
    hide OnReadable, OnAttach, OnClose, PushStatus, Marked, DataFrames;
    match e {
      case Readable(bytes, exit, busy, now) =>
        ReadableCore(c, s, bytes, exit, busy, now);
      case Commanded(_, _, _) =>
        CommandCore(c, s, e);
      case PollTick(busy) =>
        PollTouchesStatus(c, s.(pollRunning := busy));
      case _ =>
    }
  }

  // ------------------------------------------------------ over the events

  predicate AnyClose(es: seq<Event>) {
    exists i :: 0 <= i < |es| && IsClose(es[i])
  }

  /** The size last asked for, or the one that the session was opened with. */
  function LastSize(size: (u16, u16), es: seq<Event>): (u16, u16) {
    if es == [] then size
    else if IsResize(Last(es)) then SizeIn(Last(es))
    else LastSize(size, Init(es))
  }

  /** The first end of file. */
  ghost predicate DiesAt(es: seq<Event>, i: nat) {
    i < |es| && IsExit(es[i]) && forall j :: 0 <= j < i ==> !IsExit(es[j])
  }

  predicate AnyExit(es: seq<Event>) {
    exists i :: 0 <= i < |es| && IsExit(es[i])
  }

  /**
   * The `i`-th event is the last CLOSE with a grace, its deadline is `due`, and no kill timer has fired at or
   * past that deadline since.
   */
  ghost predicate ArmedAt(es: seq<Event>, i: nat, due: nat) {
    && i < |es| && IsGracefulClose(es[i]) && due == es[i].now + es[i].cmd.graceMs
    && forall j :: i < j < |es| ==> !IsGracefulClose(es[j]) && !(es[j].KillElapsed? && due <= es[j].now)
  }

  ghost predicate Armed(es: seq<Event>, due: nat) {
    exists i :: ArmedAt(es, i, due)
  }

  lemma ArmedStep(es: seq<Event>, e: Event, due: nat)
    ensures Armed(es + [e], due) <==>
            if IsGracefulClose(e) then due == e.now + e.cmd.graceMs
            else Armed(es, due) && !(e.KillElapsed? && due <= e.now)
  {
    var n, more := |es|, es + [e];
    assert more[n] == e && forall j :: 0 <= j < n ==> more[j] == es[j];
    if IsGracefulClose(e) && due == e.now + e.cmd.graceMs {
      assert ArmedAt(more, n, due);
    }
    if Armed(more, due) {
      var i: nat :| ArmedAt(more, i, due);
      if i < n {
        assert IsGracefulClose(es[i]) && forall j :: i < j < n ==> es[j] == more[j];
        assert ArmedAt(es, i, due);
      }
    }
    if !IsGracefulClose(e) && Armed(es, due) && !(e.KillElapsed? && due <= e.now) {
      var i: nat :| ArmedAt(es, i, due);
      assert ArmedAt(more, i, due);
    }
  }

  lemma DiesStep(es: seq<Event>, e: Event, i: nat)
    ensures DiesAt(es + [e], i) <==> DiesAt(es, i) || (i == |es| && IsExit(e) && !AnyExit(es))
    ensures AnyExit(es + [e]) <==> AnyExit(es) || IsExit(e)
    ensures AnyClose(es + [e]) <==> AnyClose(es) || IsClose(e)
  {
    var more := es + [e];
    assert more[|es|] == e && forall j :: 0 <= j < |es| ==> more[j] == es[j];
  }

  /** A running loop's fields, told by the events that led to it. */
  ghost predicate Told(c: Config, s: State, es: seq<Event>) {
    && s.size == LastSize(c.size, es)
    && (s.closing <==> AnyClose(es))
    && KillTold(s, es) && EndTold(c, s, es)
  }

  /** Its deadline, its size and its end, each by itself. */
  ghost predicate KillTold(s: State, es: seq<Event>) {
    forall due: nat :: s.kill == Some(due) <==> Armed(es, due)
  }

  ghost predicate EndTold(c: Config, s: State, es: seq<Event>) {
    && (s.life.Live? <==> !AnyExit(es))
    && (s.life.Dead? <==> s.grace.Some?)
    && DeathTold(c, s.life, s.grace, es)
  }

  lemma KillToldStep(c: Config, s: State, es: seq<Event>, e: Event)
    requires InRange(s) && s.left.None? && KillTold(s, es)
    ensures KillTold(Step(c, s, e), es + [e])
  {
    StepCore(c, s, e);
    hide Step, Armed;
    forall due: nat
      ensures Step(c, s, e).kill == Some(due) <==> Armed(es + [e], due)
    {
      ArmedStep(es, e, due);
    }
  }

  lemma EndToldStep(c: Config, s: State, es: seq<Event>, e: Event)
    requires InRange(s) && s.left.None? && EndTold(c, s, es) && (s.closing <==> AnyClose(es))
    requires Step(c, s, e).left.None?
    ensures EndTold(c, Step(c, s, e), es + [e]) && (Step(c, s, e).closing <==> AnyClose(es + [e]))
  {
    hide Step, AnyExit, AnyClose, DiesAt, InRange;
    StepCore(c, s, e);
    DiesStep(es, e, 0);
    var r := Step(c, s, e);
    EndKept(c, s.life, s.grace, r.life, r.grace, es, e);
  }

  /** The first end of file says how the shell died and when its retention ends. */
  ghost predicate DeathTold(c: Config, life: Lifecycle, grace: Option<nat>, es: seq<Event>) {
    forall i: nat :: DiesAt(es, i) ==> life == Dead(es[i].exit.value) && grace == Some(es[i].now + c.deadGrace)
  }

  lemma EndKept(c: Config, life: Lifecycle, grace: Option<nat>, life': Lifecycle, grace': Option<nat>,
                es: seq<Event>, e: Event)
    requires life.Live? <==> !AnyExit(es)
    requires DeathTold(c, life, grace, es)
    requires if life.Live? && IsExit(e) then life' == Dead(e.exit.value) && grace' == Some(e.now + c.deadGrace)
             else life' == life && grace' == grace
    ensures DeathTold(c, life', grace', es + [e])
  {
    hide AnyExit;
    var more := es + [e];
    forall i: nat | DiesAt(more, i)
      ensures life' == Dead(more[i].exit.value) && grace' == Some(more[i].now + c.deadGrace)
    {
      DiesStep(es, e, i);
      if DiesAt(es, i) {
        DeadFor(es, i);
      }
      hide DiesAt;
    }
  }

  lemma ToldStep(c: Config, s: State, es: seq<Event>, e: Event)
    requires InRange(s) && s.left.None? && Told(c, s, es) && Step(c, s, e).left.None?
    ensures Told(c, Step(c, s, e), es + [e])
  {
    StepCore(c, s, e);
    hide Step;
    KillToldStep(c, s, es, e);
    EndToldStep(c, s, es, e);
    SizeStep(c.size, es, e);
    hide Armed, AnyExit, AnyClose, LastSize, DiesAt;
  }

  lemma SizeStep(size: (u16, u16), es: seq<Event>, e: Event)
    ensures LastSize(size, es + [e]) == if IsResize(e) then SizeIn(e) else LastSize(size, es)
  {
    assert Init(es + [e]) == es;
  }

  lemma DeadFor(es: seq<Event>, i: nat)
    requires DiesAt(es, i)
    ensures AnyExit(es)
  {
  }

  /** While the loop runs, its last event left it running. */
  lemma RunsBefore(c: Config, es: seq<Event>)
    requires es != [] && Run(c, es).left.None?
    ensures Run(c, Init(es)).left.None?
  {
  }

  lemma {:induction false} RunIsTold(c: Config, es: seq<Event>)
    requires Run(c, es).left.None?
    ensures Told(c, Run(c, es), es)
  {
    if es == [] {
      NothingTold(c);
    } else {
      RunsBefore(c, es);
      hide Told, Step;
      RunIsTold(c, Init(es));
      assert es == Init(es) + [Last(es)];
      ToldStep(c, Run(c, Init(es)), Init(es), Last(es));
    }
  }

  lemma NothingTold(c: Config)
    ensures Told(c, Opened(c.size), [])
  {
  }

  // ------------------------------------------------------------- results

  /**
   * Which signals the shell gets: while the loop runs and the shell is alive, one SIGHUP for each CLOSE, one
   * SIGWINCH for each resize and attach, and SIGKILL exactly when the kill timer fires at or past the deadline
   * of the last CLOSE with a grace, for the first time since. Nothing else, and nothing to a dead shell.
   */
  lemma {:induction false} SignalsAreExact(c: Config, es: seq<Event>, e: Event)
    ensures var s, r := Run(c, es), Step(c, Run(c, es), e);
            var up := s.left.None? && !AnyExit(es);
            && (IsClose(e) ==> r.signals == s.signals + (if up then [Hup] else []))
            && (IsResize(e) ==> r.signals == s.signals + (if up then [Winch] else []))
            && (e.KillElapsed? ==>
                  && (forall due: nat :: Armed(es, due) && due <= e.now ==>
                        r.signals == s.signals + (if up then [Kill(e.now, due)] else []))
                  && ((forall due: nat :: Armed(es, due) ==> due > e.now) ==> r.signals == s.signals))
            && (!IsClose(e) && !IsResize(e) && !e.KillElapsed? ==> r.signals == s.signals)
  {
    var s := Run(c, es);
    assert s.signals + [] == s.signals;
    if s.left.None? {
      RunIsTold(c, es);
      StepCore(c, s, e);
      hide Step, Run, Armed, AnyExit;
      if s.kill.Some? {
        assert Armed(es, s.kill.value);
      }
    }
  }

  /** So the SIGKILLs of a run grow exactly by the kill timer at a pending deadline, over a live shell. */
  lemma {:induction false} KillsExactly(c: Config, es: seq<Event>, e: Event)
    ensures var s, r := Run(c, es), Step(c, Run(c, es), e);
            Kills(r.signals) == Kills(s.signals)
              + if s.left.None? && !AnyExit(es) && e.KillElapsed? && exists due: nat :: Armed(es, due) && due <= e.now
                then 1 else 0
  {
    var s, r := Run(c, es), Step(c, Run(c, es), e);
    SignalsAreExact(c, es, e);
    hide Step, Run, Armed, AnyExit;
    CountOne(s.signals, Hup);
    CountOne(s.signals, Winch);
    assert s.signals + [] == s.signals;
    if due: nat :| Armed(es, due) && e.KillElapsed? && due <= e.now {
      CountOne(s.signals, Kill(e.now, due));
    }
  }

  lemma CountOne(signals: seq<Signal>, signal: Signal)
    ensures Kills(signals + [signal]) == Kills(signals) + if signal.Kill? then 1 else 0
  {
    assert Init(signals + [signal]) == signals;
  }

  /** A live session, a CLOSE with a grace, and its deadline: the shell gets SIGHUP and then SIGKILL. */
  lemma CloseEscalatesToKill(c: Config, graceMs: u32, now: nat, later: nat)
    requires graceMs > 0 && later >= now + graceMs
    ensures Run(c, [Commanded(Close(graceMs), false, now)] + [KillElapsed(later)]).signals
            == [Hup] + [Kill(later, now + graceMs)]
  {
    var close := Commanded(Close(graceMs), false, now);
    var none: seq<Event> := [];
    assert Init([close] + [KillElapsed(later)]) == [close] && Init([close]) == none;
    SignalsAreExact(c, [], close);
    StepCore(c, Run(c, []), close);
    SignalsAreExact(c, [close], KillElapsed(later));
    assert ArmedAt([close], 0, now + graceMs);
    assert !AnyExit([close]) && !AnyExit(none);
    hide Step;
  }

  /** The terminal size is the one last asked for, by a resize or an attach, while the loop runs. */
  lemma SizeIsLastAskedFor(c: Config, es: seq<Event>)
    requires Run(c, es).left.None?
    ensures Run(c, es).size == LastSize(c.size, es)
  {
    RunIsTold(c, es);
  }

  /** The shell is dead exactly from the first end of file on, with the status reaped then. */
  lemma {:induction false} DeadFromFirstExit(c: Config, es: seq<Event>)
    requires Run(c, es).left.None?
    ensures Run(c, es).life.Dead? <==> AnyExit(es)
    ensures forall i: nat :: DiesAt(es, i) ==> Run(c, es).life == Dead(es[i].exit.value)
  {
    RunIsTold(c, es);
    hide Run;
  }

  /**
   * When the loop ends: with the command channel, on a failed read, on the end of file behind a CLOSE, on a CLOSE
   * or an attach over a dead shell, and when the retention behind its death has elapsed; and not otherwise.
   */
  lemma {:induction false} LoopEndsExactly(c: Config, es: seq<Event>, e: Event)
    requires Run(c, es).left.None?
    ensures Step(c, Run(c, es), e).left.Some? <==>
              || e.SendersGone?
              || (!AnyExit(es) && (e.ReadFailed? || (IsExit(e) && AnyClose(es))))
              || (AnyExit(es) && (IsClose(e) || (e.Commanded? && e.cmd.Attach?)))
              || (e.GraceElapsed? && exists i: nat :: DiesAt(es, i) && es[i].now + c.deadGrace <= e.now)
  {
    RunIsTold(c, es);
    StepCore(c, Run(c, es), e);
    hide Step, Run;
    FirstExit(es);
  }

  lemma {:induction false} FirstExit(es: seq<Event>)
    ensures AnyExit(es) <==> exists i: nat :: DiesAt(es, i)
  {
    if es != [] && AnyExit(es) {
      var front, e := Init(es), Last(es);
      assert es == front + [e];
      FirstExit(front);
      DiesStep(front, e, |front|);
      if i: nat :| DiesAt(front, i) {
        DiesStep(front, e, i);
      }
    }
  }
}
