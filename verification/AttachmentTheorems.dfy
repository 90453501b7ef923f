/**
 * How long a client stays attached, and what it is sent in each step: it loses its place to another attach, with
 * the loop, or to a frame that its queue does not take, and to nothing else.
 */
module AttachmentTheorems {
  import opened Bytes
  import opened ActorCommands
  import opened Actor
  import opened ActorTheorems
  import opened DeliveryTheorems

  // ---------------------------------------------------- what a queue takes

  /** What waits just before a queue's `n`-th send from now, if all sends before it go through. */
  function BacklogFrom(q: Queue, n: nat): nat {
    var waiting := if n == 0 then q.waiting else BacklogFrom(q, n - 1) + 1;
    var taken := q.consumer(q.tries + n).taken;
    if taken < waiting then waiting - taken else 0
  }

  /** Its `n`-th send from now goes through: the receiver is there, and so is room. */
  predicate RoomAt(q: Queue, n: nat) {
    !q.consumer(q.tries + n).hangup && BacklogFrom(q, n) < q.cap
  }

  /** A queue takes the next `n` frames. */
  ghost predicate TakesNext(q: Queue, n: nat) {
    n > 0 ==> !q.closed && forall i :: 0 <= i < n ==> RoomAt(q, i)
  }

  /** The queue behind frames that it took. */
  function Filled(q: Queue, fs: seq<OutFrame>): Queue {
    q.(tries := q.tries + |fs|,
       waiting := if fs == [] then q.waiting else BacklogFrom(q, |fs| - 1) + 1,
       sent := q.sent + fs)
  }

  lemma TrySendIs(q: Queue, fs: seq<OutFrame>, f: OutFrame)
    requires TakesNext(q, |fs|)
    ensures Accepts(Filled(q, fs)) <==> TakesNext(q, |fs| + 1)
    ensures TakesNext(q, |fs| + 1) ==> TrySend(Filled(q, fs), f) == Filled(q, fs + [f])
  {
    var n := |fs|;
    assert Consumed(Filled(q, fs)).waiting == BacklogFrom(q, n);
    assert q.sent + fs + [f] == q.sent + (fs + [f]);
    assert TakesNext(q, n + 1) <==> !q.closed && TakesNext(q, n) && RoomAt(q, n);
  }

  lemma TakesFewer(q: Queue, n: nat, m: nat)
    requires n <= m && TakesNext(q, m)
    ensures TakesNext(q, n)
  {
  }

  /** One push to a client whose queue took `front`. */
  lemma PushTakes(s: State, k: nat, q: Queue, front: seq<OutFrame>, f: OutFrame)
    requires s.client == Some(k) && k < |s.queues| && s.queues[k] == Filled(q, front)
    requires TakesNext(q, |front|)
    ensures var r := PushOrDrop(s, f);
            && |r.queues| == |s.queues|
            && (TakesNext(q, |front| + 1) ==> r.client == Some(k) && r.queues[k] == Filled(q, front + [f]))
            && (!TakesNext(q, |front| + 1) ==> r.client == None)
  {
    TrySendIs(q, front, f);
    hide TakesNext, Filled, TrySend, Accepts;
  }

  /** A client stays attached over some frames exactly if its queue takes them all, and then has them all. */
  lemma {:induction false} ForwardTakes(s: State, fs: seq<OutFrame>)
    requires InRange(s) && s.client.Some?
    ensures var k, r := s.client.value, Forward(s, fs);
            && |r.queues| == |s.queues|
            && (TakesNext(s.queues[k], |fs|) ==> r.client == s.client && r.queues[k] == Filled(s.queues[k], fs))
            && (!TakesNext(s.queues[k], |fs|) ==> r.client == None)
  {
    var k := s.client.value;
    if fs == [] {
      assert s.queues[k].sent + [] == s.queues[k].sent;
    } else {
      hide TakesNext, Filled;
      var front, f := Init(fs), Last(fs);
      assert fs == front + [f];
      ForwardTakes(s, front);
      var mid := Forward(s, front);
      assert Forward(s, fs) == PushOrDrop(mid, f);
      if TakesNext(s.queues[k], |front|) {
        PushTakes(mid, k, s.queues[k], front, f);
        hide PushOrDrop;
      } else {
        if TakesNext(s.queues[k], |fs|) {
          TakesFewer(s.queues[k], |front|, |fs|);
        }
        assert PushOrDrop(mid, f) == mid;
      }
    }
  }

  lemma {:induction false} ForwardConcat(s: State, a: seq<OutFrame>, b: seq<OutFrame>)
    requires InRange(s)
    ensures Forward(s, a + b) == Forward(Forward(s, a), b)
  {
    if b == [] {
      assert a + b == a;
    } else {
      hide PushOrDrop;
      ForwardConcat(s, a, Init(b));
      assert Init(a + b) == a + Init(b) && Last(a + b) == Last(b);
    }
  }

  /** Two states with the same queues and client: what is forwarded does the same to both. */
  ghost predicate SameQueues(s: State, r: State) {
    s.queues == r.queues && s.client == r.client
  }

  lemma {:induction false} ForwardSame(s: State, r: State, fs: seq<OutFrame>)
    requires InRange(s) && SameQueues(s, r)
    ensures SameQueues(Forward(s, fs), Forward(r, fs))
  {
    if fs != [] {
      ForwardSame(s, r, Init(fs));
    }
  }

  lemma ForwardOne(s: State, f: OutFrame)
    requires InRange(s)
    ensures Forward(s, [f]) == PushOrDrop(s, f)
  {
    assert Init([f]) == [];
    assert Forward(s, []) == s;
    hide PushOrDrop;
  }

  /** Once the client is gone, nothing is forwarded. */
  lemma {:induction false} ForwardToNobody(s: State, fs: seq<OutFrame>)
    requires s.client == None
    ensures Forward(s, fs) == s
  {
    if fs != [] {
      ForwardToNobody(s, Init(fs));
    }
  }

  // -------------------------------------------------- what a step sends

  /** The drained bytes, then STATUS if the reported value changes, then EXIT if the shell ends. */
  function StepFrames(c: Config, s: State, r: State, e: Event): seq<OutFrame> {
    (if e.Readable? && s.left.None? && s.life.Live? then DataFrames(e.bytes) else [])
      + (if Effective(c, r) != Effective(c, s) then [StatusFrame(Effective(c, r))] else [])
      + (if s.life.Live? && r.life.Dead? then [ExitFrame(r.life.status)] else [])
  }

  lemma StatusForwards(c: Config, s: State)
    requires InRange(s) && s.lastStatus.Some?
    ensures var eff := Effective(c, s);
            SameQueues(PushStatus(c, s), Forward(s, if s.lastStatus != Some(eff) then [StatusFrame(eff)] else []))
  {
    hide Effective;
    ForwardOne(s, StatusFrame(Effective(c, s)));
    assert Forward(s, []) == s;
    hide PushOrDrop;
  }

  /** What an attached client is sent in a drain. */
  lemma ReadableForwards(c: Config, s: State, bytes: seq<byte>, exit: Option<int>, busy: bool, now: nat)
    requires InRange(s) && s.client.Some? && s.life.Live? && s.lastStatus == Some(Effective(c, s))
    ensures var r := OnReadable(c, s, bytes, exit, busy, now);
            SameQueues(r, Forward(s, DataFrames(bytes)
              + (if Effective(c, r) != Effective(c, s) then [StatusFrame(Effective(c, r))] else [])
              + (if exit.Some? then [ExitFrame(exit.value)] else [])))
  {
    hide Effective, DataFrames, PushOrDrop, PushStatus, Forward;
    var r := OnReadable(c, s, bytes, exit, busy, now);
    var s1 := Absorb(s, bytes, exit);
    var s2 := Forward(s1, DataFrames(bytes));
    var s3 := Report(c, s2, busy);
    var end := if exit.Some? then [ExitFrame(exit.value)] else [];
    var status := if Effective(c, r) != Effective(c, s) then [StatusFrame(Effective(c, r))] else [];
    ForwardTouchesQueues(s1, DataFrames(bytes));
    ReportTouchesStatus(c, s2, busy);
    EndForwards(c, s3, exit, now);
    EffectiveUnchanged(c, s3, r);
    ForwardConcat(s, DataFrames(bytes) + status, end);
    ForwardConcat(s, DataFrames(bytes), status);
    ForwardSame(s, s1, DataFrames(bytes));
    ReportForwards(c, s, s2, busy);
    ForwardSame(Forward(s, DataFrames(bytes)), s2, status);
    ForwardSame(Forward(Forward(s, DataFrames(bytes)), status), s3, end);
  }

  lemma EndForwards(c: Config, s: State, exit: Option<int>, now: nat)
    requires InRange(s)
    ensures var r := if exit.Some? then Finish(c, s, exit.value, now) else s;
            && SameQueues(r, Forward(s, if exit.Some? then [ExitFrame(exit.value)] else []))
            && r.drained == s.drained && r.pollRunning == s.pollRunning
  {
    if exit.Some? {
      ForwardOne(s, ExitFrame(exit.value));
      PushTouchesQueues(s, ExitFrame(exit.value));
    } else {
      assert Forward(s, []) == s;
    }
    hide PushOrDrop, Forward;
  }

  /** The status behind the data: sent if it differs from the one before the drain, unless the client is gone. */
  lemma ReportForwards(c: Config, s: State, t: State, busy: bool)
    requires InRange(t) && s.lastStatus == Some(Effective(c, s)) && t.lastStatus == s.lastStatus
    ensures var r := Report(c, t, busy);
            SameQueues(r, Forward(t, if Effective(c, r) != Effective(c, s) then [StatusFrame(Effective(c, r))] else []))
  {
    hide Effective, PushStatus, Forward;
    var r := Report(c, t, busy);
    if t.client.None? {
      ForwardToNobody(t, if Effective(c, r) != Effective(c, s) then [StatusFrame(Effective(c, r))] else []);
    } else {
      var t1 := if !Marked(c, t) && t.life.Live? then t.(pollRunning := busy) else t;
      StatusForwards(c, t1);
      PollTouchesStatus(c, t1);
      EffectiveUnchanged(c, t1, r);
      ForwardSame(t, t1, if Effective(c, r) != Effective(c, s) then [StatusFrame(Effective(c, r))] else []);
    }
  }

  /** Steps that take the client's place away whatever its queue. */
  predicate EndsPlace(s: State, e: Event) {
    || (e.Commanded? && e.cmd.Attach?)
    || (e.ReadFailed? && s.life.Live?)
    || (e.Commanded? && e.cmd.Close? && s.life.Dead?)
  }

  lemma StepForwards(c: Config, s: State, e: Event)
    requires InRange(s) && s.client.Some? && s.lastStatus == Some(Effective(c, s))
    requires s.left.None? && !EndsPlace(s, e)
    ensures var r := Step(c, s, e); SameQueues(r, Forward(s, StepFrames(c, s, r, e)))
  {
    hide Effective, OnReadable, PushStatus, Forward, DataFrames, Marked;
    var r := Step(c, s, e);
    match e {
      case Readable(bytes, exit, busy, now) =>
        if s.life.Live? {
          ReadableEffects(c, s, bytes, exit, busy, now);
          ReadableForwards(c, s, bytes, exit, busy, now);
        } else {
          NoFramesForwarded(c, s, e);
        }
      case PollTick(busy) =>
        if Enabled(c, s, e) {
          PollForwards(c, s, busy);
        } else {
          NoFramesForwarded(c, s, e);
        }
      case _ =>
        QuietStep(c, s, e);
        NoFramesForwarded(c, s, e);
    }
  }

  lemma PollForwards(c: Config, s: State, busy: bool)
    requires InRange(s) && s.client.Some? && s.lastStatus == Some(Effective(c, s))
    ensures var r := PushStatus(c, s.(pollRunning := busy));
            && r.life == s.life
            && SameQueues(r, Forward(s, [] +
                 (if Effective(c, r) != Effective(c, s) then [StatusFrame(Effective(c, r))] else []) + []))
  {
    hide Effective, PushStatus, Forward;
    var s1 := s.(pollRunning := busy);
    var r := PushStatus(c, s1);
    StatusForwards(c, s1);
    PollTouchesStatus(c, s1);
    EffectiveUnchanged(c, s1, r);
    var fs := if Effective(c, r) != Effective(c, s) then [StatusFrame(Effective(c, r))] else [];
    assert [] + fs + [] == fs;
    ForwardSame(s, s1, fs);
  }

  /** All other arms leave queues, client, bytes, poll result and life alone. */
  lemma QuietStep(c: Config, s: State, e: Event)
    requires InRange(s) && s.left.None? && !EndsPlace(s, e) && !e.Readable? && !e.PollTick?
    ensures var r := Step(c, s, e);
            && SameQueues(r, s) && r.drained == s.drained && r.pollRunning == s.pollRunning && r.life == s.life
  {
    hide OnAttach, OnReadable, PushStatus, Marked;
    if e.Commanded? && e.cmd.Close? {
      CloseOnLive(s, e.cmd.graceMs, e.now);
    }
  }

  lemma NoFramesForwarded(c: Config, s: State, e: Event)
    requires InRange(s) && !(e.Readable? && s.left.None? && s.life.Live?)
    requires var r := Step(c, s, e);
             SameQueues(r, s) && r.drained == s.drained && r.pollRunning == s.pollRunning && r.life == s.life
    ensures var r := Step(c, s, e); SameQueues(r, Forward(s, StepFrames(c, s, r, e)))
  {
    var r := Step(c, s, e);
    EffectiveUnchanged(c, s, r);
    hide Effective, Step, DataFrames;
    assert StepFrames(c, s, r, e) == [];
    assert Forward(s, []) == s;
  }

  // ---------------------------------------------------------- whole runs

  /**
   * An attached client stays attached over a step exactly if the loop has ended before, or the step is no other
   * attach, no failed read and no CLOSE of a dead session, and its queue takes all the step's frames; and then
   * it has been sent all of them: the drained bytes, STATUS if it changed, EXIT if the shell ended.
   */
  lemma {:induction false} StaysIffTaken(c: Config, es: seq<Event>, e: Event, k: nat)
    ensures var s, r := Run(c, es), Step(c, Run(c, es), e);
            s.client == Some(k) ==>
              && k < |s.queues| && k < |r.queues|
              && (r.client == Some(k) <==>
                    s.left.Some? || (!EndsPlace(s, e) && TakesNext(s.queues[k], |StepFrames(c, s, r, e)|)))
              && (r.client == Some(k) ==>
                    && r.queues[k].sent == s.queues[k].sent + (if s.left.Some? then [] else StepFrames(c, s, r, e))
                    && r.queues[k].closed == s.queues[k].closed)
  {
    var s, r := Run(c, es), Step(c, Run(c, es), e);
    DeliveryHolds(c, es);
    hide Run, StepFrames, TakesNext, Delivered;
    if s.client == Some(k) {
      if s.left.Some? {
        assert s.queues[k].sent + [] == s.queues[k].sent;
      } else if EndsPlace(s, e) {
        PlaceEnds(c, s, e, k);
      } else {
        hide Step;
        StepForwards(c, s, e);
        ForwardTakes(s, StepFrames(c, s, r, e));
      }
    }
  }

  lemma PlaceEnds(c: Config, s: State, e: Event, k: nat)
    requires InRange(s) && s.left.None? && s.client == Some(k) && EndsPlace(s, e)
    ensures var r := Step(c, s, e); k < |r.queues| && r.client != Some(k)
  {
    hide OnAttach, OnReadable, PushStatus, Marked, Effective, DataFrames;
    if e.Commanded? && e.cmd.Attach? {
      AttachAdds(c, s, e.cmd.req, e.busy);
    }
  }

  /** An attached client of a dead session has been told: the last frame in its queue is EXIT, with that status. */
  ghost predicate DeadIsTold(s: State, k: nat)
    requires k < |s.queues| == |s.attaches|
  {
    s.client == Some(k) && s.life.Dead? && Fits(s.queues[k], s.attaches[k]) && !s.queues[k].closed ==>
      s.queues[k].sent != [] && Last(s.queues[k].sent) == ExitFrame(s.life.status)
  }

  lemma AttachTellsDead(c: Config, s: State, req: AttachRequest, busy: bool)
    requires |s.queues| == |s.attaches|
    ensures var r := OnAttach(c, s, req, busy);
            |r.queues| == |r.attaches| == |s.queues| + 1 && DeadIsTold(r, |s.queues|)
  {
    AttachAdds(c, s, req, busy);
    var s1 := Refreshed(c, s, busy);
    var h := Handshake(c, s1, req.wantChunks);
    var q := OfferAll(NewQueue(c.outQueue, req.consumer), h);
    OfferCap(c.outQueue, req.consumer, h);
    assert s1.life.Dead? ==> h != [] && Last(h) == ExitFrame(s1.life.status);
    hide OnAttach, Handshake, OfferAll, Effective;
    if |h| <= c.outQueue {
      OfferFits(c.outQueue, req.consumer, h);
    }
  }

  lemma {:induction false} ExitIsTold(c: Config, es: seq<Event>)
    ensures var s := Run(c, es);
            |s.queues| == |s.attaches| && forall k: nat :: k < |s.queues| ==> DeadIsTold(s, k)
  {
    DeliveryHolds(c, es);
    if es != [] {
      DeliveryHolds(c, Init(es));
      hide Step, DeadIsTold, AllDelivered;
      ExitIsTold(c, Init(es));
      DeliveredInRange(c, Run(c, es));
      DeliveredInRange(c, Run(c, Init(es)));
      forall k: nat | k < |Run(c, es).queues|
        ensures DeadIsTold(Run(c, es), k)
      {
        ToldStep(c, Init(es), Last(es), k);
      }
    }
  }

  lemma DeliveredInRange(c: Config, s: State)
    requires AllDelivered(c, s)
    ensures |s.queues| == |s.attaches| && InRange(s)
  {
    hide Delivered;
  }

  lemma ToldStep(c: Config, es: seq<Event>, e: Event, k: nat)
    requires var s := Run(c, es); |s.queues| == |s.attaches| && forall i: nat :: i < |s.queues| ==> DeadIsTold(s, i)
    requires var r := Step(c, Run(c, es), e); k < |r.queues| == |r.attaches|
    ensures DeadIsTold(Step(c, Run(c, es), e), k)
  {
    var s, r := Run(c, es), Step(c, Run(c, es), e);
    hide Run;
    if s.left.None? && e.Commanded? && e.cmd.Attach? {
      AttachTellsDead(c, s, e.cmd.req, e.busy);
      AttachAdds(c, s, e.cmd.req, e.busy);
    } else {
      StepKeepsAttaches(c, s, e);
      hide Step;
      StaysIffTaken(c, es, e, k);
      ClientIsOld(c, s, e, k);
      if r.client == Some(k) && r.life.Dead? && s.left.None? {
        if s.life.Dead? {
          DeadSendsNothing(c, s, e);
          assert DeadIsTold(s, k);
          assert r.queues[k].sent == s.queues[k].sent;
          assert r.life == s.life;
        } else {
          assert Last(StepFrames(c, s, r, e)) == ExitFrame(r.life.status);
        }
      }
    }
  }

  lemma ClientIsOld(c: Config, s: State, e: Event, k: nat)
    requires InRange(s) && !(s.left.None? && e.Commanded? && e.cmd.Attach?)
    ensures Step(c, s, e).client == Some(k) ==> s.client == Some(k) && k < |s.queues|
  {
    if s.client != Some(k) && k < |s.queues| {
      DetachStays(c, s, e, k);
    }
    QueueCountStays(c, s, e);
    hide Step;
  }

  lemma QueueCountStays(c: Config, s: State, e: Event)
    requires InRange(s) && !(s.left.None? && e.Commanded? && e.cmd.Attach?)
    ensures |Step(c, s, e).queues| == |s.queues| && InRange(Step(c, s, e))
  {
    StepKeepsAttaches(c, s, e);
  }

  lemma StepKeepsAttaches(c: Config, s: State, e: Event)
    requires InRange(s) && !(s.left.None? && e.Commanded? && e.cmd.Attach?)
    ensures var r := Step(c, s, e); r.attaches == s.attaches && |r.queues| == |s.queues|
    ensures var r := Step(c, s, e);
            forall k :: 0 <= k < |s.queues| ==> r.queues[k].cap == s.queues[k].cap
    ensures s.life.Dead? ==> Step(c, s, e).life == s.life
  {
    hide OnAttach, OnReadable, OnClose, PushStatus, Marked, DataFrames;
    if Enabled(c, s, e) {
      match e {
        case Commanded(cmd, busy, now) =>
          if cmd.Close? {
            CloseShape(s, cmd.graceMs, now);
          }
        case Readable(bytes, exit, busy, now) => ReadableShape(c, s, bytes, exit, busy, now);
        case PollTick(busy) =>
          var _ := StatusPush(c, s.(pollRunning := busy));
          PollTouchesStatus(c, s.(pollRunning := busy));
        case _ =>
      }
    }
  }

  lemma CloseShape(s: State, graceMs: nat, now: nat)
    requires InRange(s)
    ensures var r := OnClose(s, graceMs, now);
            && r.attaches == s.attaches && |r.queues| == |s.queues| && r.life == s.life
            && forall k :: 0 <= k < |s.queues| ==> r.queues[k].cap == s.queues[k].cap
  {
  }

  lemma ReadableShape(c: Config, s: State, bytes: seq<byte>, exit: Option<int>, busy: bool, now: nat)
    requires InRange(s)
    ensures var r := OnReadable(c, s, bytes, exit, busy, now);
            && r.attaches == s.attaches && |r.queues| == |s.queues|
            && forall k :: 0 <= k < |s.queues| ==> r.queues[k].cap == s.queues[k].cap
  {
    hide Forward, DataFrames, Report, Finish, Effective;
    var s1 := Absorb(s, bytes, exit);
    var s2 := Forward(s1, DataFrames(bytes));
    PushedAll(s1, DataFrames(bytes));
    ForwardTouchesQueues(s1, DataFrames(bytes));
    var _ := ReportPush(c, s2, busy);
    EndPush(c, Report(c, s2, busy), exit, now);
  }

  lemma DeadSendsNothing(c: Config, s: State, e: Event)
    requires InRange(s) && s.life.Dead? && s.left.None? && !EndsPlace(s, e)
    ensures StepFrames(c, s, Step(c, s, e), e) == []
  {
    var r := Step(c, s, e);
    if !e.Readable? && !e.PollTick? {
      QuietStep(c, s, e);
    }
    EffectiveUnchanged(c, s, r);
    hide Effective, Step, DataFrames;
  }
}
