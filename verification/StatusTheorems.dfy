/**
 * What a STATUS reports, and an info reply: the shell's markers once there are any, the foreground poll before,
 * and the last progress report.
 */
module StatusTheorems {
  import opened Bytes
  import opened Callbacks
  import opened Sink
  import opened Scanner
  import opened ReplayTheorems
  import opened SanitiserTheorems
  import opened ActorCommands
  import opened Actor
  import opened ActorLoop
  import opened ActorTheorems
  import opened DeliveryTheorems
  import opened AttachmentTheorems
  import opened EngineTheorems
  import T = Translate

  // -------------------------------------------------- the foreground poll

  /**
   * Whether an event asks the foreground poll, and its answer: an attach, a drain that its client is sent whole
   * and that leaves the shell alive, and a tick over an attached client; none of them once a marker was seen.
   */
  ghost function PollAsked(c: Config, s: State, e: Event): Option<bool>
    requires InRange(s)
  {
    if s.left.Some? then None
    else if e.Commanded? && e.cmd.Attach? then
      if c.engine.status(s.drained).marked then None else Some(s.life.Live? && e.busy)
    else if s.life.Dead? || s.client.None? then None
    else if e.Readable? then
      if e.exit.Some? || c.engine.status(s.drained + e.bytes).marked
        || !TakesNext(s.queues[s.client.value], |DataFrames(e.bytes)|) then None
      else Some(e.busy)
    else if e.PollTick? then
      if c.engine.status(s.drained).marked then None else Some(e.busy)
    else None
  }

  lemma AttachPolls(c: Config, s: State, req: AttachRequest, busy: bool)
    ensures OnAttach(c, s, req, busy).pollRunning
            == if c.engine.status(s.drained).marked then s.pollRunning else s.life.Live? && busy
  {
    hide Effective, Handshake, OfferAll;
  }

  lemma ReadablePolls(c: Config, s: State, bytes: seq<byte>, exit: Option<int>, busy: bool, now: nat)
    requires InRange(s) && s.life.Live?
    ensures OnReadable(c, s, bytes, exit, busy, now).pollRunning
            == if exit.None? && !c.engine.status(s.drained + bytes).marked && s.client.Some?
                  && TakesNext(s.queues[s.client.value], |DataFrames(bytes)|)
               then busy else s.pollRunning
  {
    hide Forward, DataFrames, PushOrDrop, Effective, TakesNext, PushStatus;
    var s1 := Absorb(s, bytes, exit);
    var s2 := Forward(s1, DataFrames(bytes));
    ForwardTouchesQueues(s1, DataFrames(bytes));
    if s.client.Some? {
      ForwardTakes(s1, DataFrames(bytes));
    } else {
      ForwardToNobody(s1, DataFrames(bytes));
    }
    PollTouchesStatus(c, if !Marked(c, s2) && s2.life.Live? then s2.(pollRunning := busy) else s2);
    EndPush(c, Report(c, s2, busy), exit, now);
  }

  lemma PollStep(c: Config, s: State, e: Event)
    requires InRange(s)
    ensures var asked := PollAsked(c, s, e);
            Step(c, s, e).pollRunning == if asked.Some? then asked.value else s.pollRunning
  {
    hide OnAttach, OnReadable, PushStatus, Effective, DataFrames, TakesNext;
    if Enabled(c, s, e) {
      match e {
        case Commanded(cmd, busy, now) =>
          match cmd {
            case Attach(req) => AttachPolls(c, s, req, busy);
            case Close(graceMs) => ClosePolls(s, graceMs, now);
            case _ =>
          }
        case Readable(bytes, exit, busy, now) => ReadablePolls(c, s, bytes, exit, busy, now);
        case PollTick(busy) => PollTouchesStatus(c, s.(pollRunning := busy));
        case _ =>
      }
    }
  }

  lemma ClosePolls(s: State, graceMs: nat, now: nat)
    requires InRange(s)
    ensures OnClose(s, graceMs, now).pollRunning == s.pollRunning
  {
  }

  /** The answer of the last poll that a run asked; not running before the first. */
  ghost function LastPoll(c: Config, es: seq<Event>): bool {
    if es == [] then false
    else
      var asked := PollAsked(c, Run(c, Init(es)), Last(es));
      if asked.Some? then asked.value else LastPoll(c, Init(es))
  }

  lemma {:induction false} StoredPollIsLast(c: Config, es: seq<Event>)
    ensures Run(c, es).pollRunning == LastPoll(c, es)
  {
    if es != [] {
      hide Step, PollAsked;
      StoredPollIsLast(c, Init(es));
      PollStep(c, Run(c, Init(es)), Last(es));
    }
  }

  // ---------------------------------------------------------- the reports

  /** `running`, told by what the shell printed, and by a poll's answer before its first marker. */
  ghost predicate RunningIs(calls: seq<Callback>, poll: bool) {
    if AnyMarker(calls) then CommandOpen(calls) else poll
  }

  /** The callbacks of everything drained so far. */
  function CallsOfDrained<P>(step: ParserStep<P>, start: P, drained: seq<byte>): seq<Callback> {
    AllCalls(step, start, T.Translated(drained).out)
  }

  lemma EngineReports<P>(step: ParserStep<P>, start: P, raw: seq<byte>, n: nat)
    ensures var status, calls := StatusOf(step, start, raw), CallsOfDrained(step, start, raw);
            && (status.marked <==> AnyMarker(calls)) && (status.running <==> CommandOpen(calls))
            && (status.progress == Some(n) <==> n <= 255 && LastReportIs(calls, n))
  {
    StatusFollowsMarkers(step, start, T.Translated(raw).out);
    ProgressIsLastReport(step, start, T.Translated(raw).out, n);
  }

  /** The snapshot of a state, told by the shell's output and the last poll. */
  lemma EffectiveIsTrue<P>(step: ParserStep<P>, start: P, watermark: nat, c: Config, s: State, n: nat)
    requires c.engine == EngineOf(step, start, watermark)
    ensures var calls := CallsOfDrained(step, start, s.drained);
            && (Effective(c, s).running <==> RunningIs(calls, s.pollRunning))
            && (Effective(c, s).progress == Some(n) <==> n <= 255 && LastReportIs(calls, n))
  {
    hide StatusOf, ReplayedBytes, AnyMarker, CommandOpen, LastReportIs, CallsOfDrained;
    EngineReports(step, start, s.drained, n);
    assert c.engine.status(s.drained) == StatusOf(step, start, s.drained);
  }

  /**
   * What an attached client was told last, in every run of an actor over a scanner, if its queue was deep enough
   * for its handshake and it has not hung up: running exactly while a C marker has no D marker behind it, once
   * any marker was drained, and what the last poll answered before; and the progress of the last report.
   */
  lemma {:induction false} StatusIsTrue<P>(
    step: ParserStep<P>, start: P, watermark: nat, c: Config, es: seq<Event>, k: nat, n: nat)
    requires c.engine == EngineOf(step, start, watermark)
    ensures var s := Run(c, es);
            s.client == Some(k) && k < |s.queues| == |s.attaches| && Fits(s.queues[k], s.attaches[k])
            && !s.queues[k].closed ==>
              var told := StatusesOf(s.queues[k].sent);
              var calls := CallsOfDrained(step, start, s.drained);
              && told != []
              && (Last(told).running <==> RunningIs(calls, LastPoll(c, es)))
              && (Last(told).progress == Some(n) <==> n <= 255 && LastReportIs(calls, n))
  {
    hide Run, StatusesOf, LastReportIs, RunningIs, CallsOfDrained, LastPoll, Effective;
    var s := Run(c, es);
    DeliveryHolds(c, es);
    StoredPollIsLast(c, es);
    EffectiveIsTrue(step, start, watermark, c, s, n);
    if s.client == Some(k) && k < |s.queues| == |s.attaches| {
      assert Delivered(c, s, k);
    }
  }

  /**
   * What an info request is answered while the loop runs: a dead session is not running; a live one runs by its
   * markers, or by the poll's answer to this very request; and there is a client exactly if one is attached.
   */
  lemma {:induction false} InfoIsTrue<P>(
    step: ParserStep<P>, start: P, watermark: nat, c: Config, es: seq<Event>, busy: bool, now: nat)
    requires c.engine == EngineOf(step, start, watermark)
    ensures var s, r := Run(c, es), Step(c, Run(c, es), Commanded(Info, busy, now));
            s.left.None? ==>
              && |r.replies| == |s.replies| + 1 && Init(r.replies) == s.replies
              && (Last(r.replies).hasClient <==> s.client.Some?)
              && (Last(r.replies).running <==>
                    s.life.Live? && RunningIs(CallsOfDrained(step, start, s.drained), busy))
  {
    hide StatusOf, ReplayedBytes, AnyMarker, CommandOpen, LastReportIs, CallsOfDrained, Run;
    var s := Run(c, es);
    EngineReports(step, start, s.drained, 0);
    assert c.engine.status(s.drained) == StatusOf(step, start, s.drained);
  }

  // ------------------------------------------------------------- handshake

  /**
   * What an attach asks for is what it is offered: its handshake begins with the data frames of a replay of the
   * depth asked for, of everything drained by then; and depth 0 asks for as much as there is.
   */
  lemma {:induction false} AttachIsOffered(c: Config, es: seq<Event>, req: AttachRequest, busy: bool, now: nat)
    ensures var s, r := Run(c, es), Step(c, Run(c, es), Commanded(Attach(req), busy, now));
            s.left.None? ==>
              && |r.attaches| == |s.attaches| + 1 == |s.queues| + 1
              && DataOf(Last(r.attaches).handshake)
                 == c.engine.replay(s.drained, if req.wantChunks == 0 then 0xffff_ffff_ffff_ffff else req.wantChunks)
              && (HasExit(Last(r.attaches).handshake) <==> s.life.Dead?)
  {
    var s := Run(c, es);
    DeliveryHolds(c, es);
    hide Run, Delivered, HasExit, DataOf, Handshake, Refreshed;
    if s.left.None? {
      AttachAdds(c, s, req, busy);
      HandshakeOffers(c, Refreshed(c, s, busy), req.wantChunks);
      hide OnAttach;
    }
  }

  /** A handshake's data is the replay, and EXIT is in it exactly over a dead shell. */
  lemma HandshakeOffers(c: Config, s: State, want: nat)
    ensures var h := Handshake(c, s, want);
            && DataOf(h) == c.engine.replay(s.drained, Depth(want))
            && (HasExit(h) <==> s.life.Dead?)
  {
    hide DataFrames, DataOf, DataIn, StatusesOf, Effective;
    var replay := c.engine.replay(s.drained, Depth(want));
    var d, status := DataFrames(replay), StatusFrame(Effective(c, s));
    var end := if s.life.Dead? then [ExitFrame(s.life.status)] else [];
    var h := d + [status] + end;
    DataFramesCarry(replay);
    ContentsConcat(d + [status], end);
    ContentsConcat(d, [status]);
    ContentsOne(status);
    OnlyExits(end);
    assert forall i :: 0 <= i < |d| ==> h[i] == d[i] && d[i] in d;
    if s.life.Dead? {
      assert h[|h| - 1].ExitFrame?;
    }
  }

  /** Depth 0 is all of it: the base that the last clear left, and every span kept since. */
  lemma {:induction false} ZeroAsksForAll<P>(step: ParserStep<P>, start: P, watermark: nat, raw: seq<byte>)
    ensures var spans := Segment(step, start, T.Translated(raw).out).spans;
            |Pieces(watermark, spans)| <= 0xffff_ffff_ffff_ffff ==>
              ReplayedBytes(step, start, watermark, raw, Depth(0)) == Base(spans) + SpanBytes(Since(spans))
  {
    hide Segment, Pieces;
    FullReplayHidesCuts(watermark, Segment(step, start, T.Translated(raw).out).spans, Depth(0));
  }
}
