/**
 * Delivery: what each client queue is sent, over every run of the actor. All of it is conditional, queue
 * by queue, on the queue being deep enough for its own handshake.
 */
module DeliveryTheorems {
  import opened Bytes
  import opened ActorCommands
  import opened Sink
  import opened Actor
  import opened ActorTheorems
  import P = Protocol

  // -------------------------------------------------- contents of frames

  function PayloadOf(f: OutFrame): seq<byte> {
    if f.DataFrame? then f.payload else []
  }

  function SnapOf(f: OutFrame): seq<Snapshot> {
    if f.StatusFrame? then [f.snap] else []
  }

  function DataOf(fs: seq<OutFrame>): seq<byte> {
    Gather(PayloadOf, fs)
  }

  function StatusesOf(fs: seq<OutFrame>): seq<Snapshot> {
    Gather(SnapOf, fs)
  }

  /** The DATA frames among some frames. */
  function DataIn(fs: seq<OutFrame>): seq<OutFrame> {
    Gather(IfData, fs)
  }

  function IfData(f: OutFrame): seq<OutFrame> {
    if f.DataFrame? then [f] else []
  }

  lemma ContentsConcat(a: seq<OutFrame>, b: seq<OutFrame>)
    ensures DataOf(a + b) == DataOf(a) + DataOf(b)
    ensures DataIn(a + b) == DataIn(a) + DataIn(b)
    ensures StatusesOf(a + b) == StatusesOf(a) + StatusesOf(b)
  {
    GatherConcat(PayloadOf, a, b);
    GatherConcat(IfData, a, b);
    GatherConcat(SnapOf, a, b);
  }

  lemma ContentsOne(f: OutFrame)
    ensures DataOf([f]) == if f.DataFrame? then f.payload else []
    ensures DataIn([f]) == if f.DataFrame? then [f] else []
    ensures StatusesOf([f]) == if f.StatusFrame? then [f.snap] else []
  {
    assert [] + [f] == [f];
    GatherSnoc(PayloadOf, [], f);
    GatherSnoc(IfData, [], f);
    GatherSnoc(SnapOf, [], f);
  }

  lemma {:induction false} OnlyData(fs: seq<OutFrame>)
    requires forall f :: f in fs ==> f.DataFrame?
    ensures StatusesOf(fs) == [] && DataIn(fs) == fs
  {
    if fs != [] {
      OnlyData(Init(fs));
      assert Last(fs) in fs && fs == Init(fs) + [Last(fs)];
    }
  }

  lemma {:induction false} PayloadsSnoc(fs: seq<P.Frame>, f: P.Frame)
    ensures P.Payloads(fs + [f]) == P.Payloads(fs) + f.payload
  {
    if fs == [] {
      assert fs + [f] == [f] && P.Payloads([f][1..]) == [];
    } else {
      PayloadsSnoc(fs[1..], f);
      assert (fs + [f])[1..] == fs[1..] + [f];
    }
  }

  lemma {:induction false} FramedPayloads(fs: seq<P.Frame>)
    ensures DataOf(Framed(fs)) == P.Payloads(fs)
  {
    if fs != [] {
      FramedPayloads(Init(fs));
      assert Init(Framed(fs)) == Framed(Init(fs));
      PayloadsSnoc(Init(fs), Last(fs));
      assert fs == Init(fs) + [Last(fs)];
    }
  }

  /** Drained bytes go out as data frames that carry exactly those bytes. */
  lemma DataFramesCarry(bytes: seq<byte>)
    ensures DataOf(DataFrames(bytes)) == bytes
    ensures StatusesOf(DataFrames(bytes)) == [] && DataIn(DataFrames(bytes)) == DataFrames(bytes)
    ensures forall f :: f in DataFrames(bytes) ==> f.DataFrame?
  {
    FramedPayloads(P.FrameData(bytes));
    P.ChunkedPayloads(bytes, P.MAX_FRAME_LEN);
    OnlyData(DataFrames(bytes));
  }

  // -------------------------------------------------------- the handshake

  predicate Fits(q: Queue, a: AttachRecord) {
    |a.handshake| <= q.cap
  }

  /** A handshake that fits is queued whole, or up to where the receiver was dropped. */
  lemma {:induction false} OfferFits(cap: nat, consumer: nat -> Consume, fs: seq<OutFrame>)
    requires |fs| <= cap
    ensures var q := OfferAll(NewQueue(cap, consumer), fs);
            && q.cap == cap && q.waiting <= |q.sent| && q.sent <= fs
            && (q.closed || q.sent == fs)
  {
    if fs != [] {
      OfferFits(cap, consumer, Init(fs));
      assert fs == Init(fs) + [Last(fs)];
    }
  }

  /** What waits in a queue just before its `n`-th send, if all sends before went through. */
  function Backlog(consumer: nat -> Consume, n: nat): nat {
    var waiting := if n == 0 then 0 else Backlog(consumer, n - 1) + 1;
    if consumer(n).taken < waiting then waiting - consumer(n).taken else 0
  }

  /** The consumer keeps up: at each of the first `n` sends it still listens, and there is room. */
  ghost predicate KeepsUp(cap: nat, consumer: nat -> Consume, n: nat) {
    forall i :: 0 <= i < n ==> !consumer(i).hangup && Backlog(consumer, i) < cap
  }

  /** A handshake is queued whole exactly when the queue's consumer keeps up with it. */
  lemma {:induction false} OfferedWholeIffKeptUp(cap: nat, consumer: nat -> Consume, fs: seq<OutFrame>)
    ensures var q := OfferAll(NewQueue(cap, consumer), fs);
            && q.cap == cap && q.consumer == consumer && q.tries == |fs| && |q.sent| <= |fs|
            && (q.sent == fs <==> KeepsUp(cap, consumer, |fs|))
            && (q.sent == fs ==>
                  !q.closed && q.waiting == if fs == [] then 0 else Backlog(consumer, |fs| - 1) + 1)
  {
    if fs != [] {
      var front, n := Init(fs), |fs| - 1;
      OfferedWholeIffKeptUp(cap, consumer, front);
      var q := OfferAll(NewQueue(cap, consumer), front);
      assert fs == front + [Last(fs)];
      assert (q.sent + [Last(fs)])[..|q.sent|] == q.sent && fs[..n] == front;
      if q.sent == front {
        assert Consumed(q).waiting == Backlog(consumer, n) && Consumed(q).closed == consumer(n).hangup;
      }
      assert KeepsUp(cap, consumer, |fs|) <==>
        KeepsUp(cap, consumer, n) && !consumer(n).hangup && Backlog(consumer, n) < cap;
    }
  }

  function Idle(n: nat): Consume {
    Consume(0, false)
  }

  lemma {:induction false} IdleBacklog(n: nat)
    ensures Backlog(Idle, n) == n
  {
    if n > 0 {
      IdleBacklog(n - 1);
    }
  }

  /** With a consumer that takes nothing, that is exactly when it fits the queue. */
  lemma IdleConsumerNeedsRoom(cap: nat, fs: seq<OutFrame>)
    ensures OfferAll(NewQueue(cap, Idle), fs).sent == fs <==> |fs| <= cap
  {
    OfferedWholeIffKeptUp(cap, Idle, fs);
    forall i | 0 <= i < |fs|
      ensures Backlog(Idle, i) == i
    {
      IdleBacklog(i);
    }
    assert |fs| > 0 ==> (KeepsUp(cap, Idle, |fs|) ==> Backlog(Idle, |fs| - 1) < cap);
  }

  // ----------------------------------------------------------- invariants

  /** A handshake is the replay as data frames, one STATUS, and EXIT exactly when the shell was dead. */
  ghost predicate Shaped(c: Config, s: State, a: AttachRecord) {
    && a.at <= |s.drained| && a.from <= |s.output| && DataOf(s.output[..a.from]) == s.drained[..a.at]
    && var replay := DataFrames(c.engine.replay(s.drained[..a.at], Depth(a.want)));
    && |replay| < |a.handshake| <= |replay| + 2
    && a.handshake[..|replay|] == replay
    && a.handshake[|replay|].StatusFrame?
    && (|a.handshake| == |replay| + 2 ==>
          s.life.Dead? && a.at == |s.drained| && a.handshake[|replay| + 1] == ExitFrame(s.life.status))
  }

  ghost predicate Distinct(snaps: seq<Snapshot>) {
    forall i :: 0 <= i < |snaps| - 1 ==> snaps[i] != snaps[i + 1]
  }

  /** What was sent behind the handshake. */
  function LiveFrames(sent: seq<OutFrame>, handshake: seq<OutFrame>): seq<OutFrame>
    requires handshake <= sent
  {
    sent[|handshake|..]
  }

  /** Nothing is missing: the handshake, and live data for everything drained since, which is `tail`. */
  ghost predicate Complete(sent: seq<OutFrame>, handshake: seq<OutFrame>, tail: seq<OutFrame>) {
    handshake <= sent && DataIn(LiveFrames(sent, handshake)) == tail
  }

  /** No gap: a prefix of the handshake, or all of it and then DATA frames that are a prefix of those made since. */
  ghost predicate GapFree(sent: seq<OutFrame>, handshake: seq<OutFrame>, tail: seq<OutFrame>) {
    sent <= handshake || (handshake <= sent && DataIn(LiveFrames(sent, handshake)) <= tail)
  }

  /** EXIT comes last and after all output; only the same EXIT can follow it. */
  ghost predicate ExitsLast(life: Lifecycle, sent: seq<OutFrame>, handshake: seq<OutFrame>, tail: seq<OutFrame>) {
    forall i :: 0 <= i < |sent| && sent[i].ExitFrame? ==>
      && life == Dead(sent[i].code)
      && Complete(sent, handshake, tail)
      && forall j :: i <= j < |sent| ==> sent[j] == sent[i]
  }

  ghost predicate LastStatusIs(sent: seq<OutFrame>, snap: Option<Snapshot>) {
    StatusesOf(sent) != [] && snap == Some(Last(StatusesOf(sent)))
  }

  ghost predicate Delivered(c: Config, s: State, k: nat)
    requires k < |s.queues| == |s.attaches|
  {
    var q, a := s.queues[k], s.attaches[k];
    && Shaped(c, s, a)
    && var tail := s.output[a.from..];
    && (Fits(q, a) ==>
          && GapFree(q.sent, a.handshake, tail)
          && ExitsLast(s.life, q.sent, a.handshake, tail)
          && Distinct(StatusesOf(q.sent))
          && (s.client == Some(k) ==>
                q.closed || (Complete(q.sent, a.handshake, tail) && LastStatusIs(q.sent, s.lastStatus))))
  }

  /** The status sent last, if anyone is attached, is the current one. */
  ghost predicate Fresh(c: Config, s: State) {
    s.client.Some? ==> s.lastStatus == Some(Effective(c, s))
  }

  ghost predicate AllDelivered(c: Config, s: State) {
    && InRange(s) && |s.queues| == |s.attaches|
    && Fresh(c, s)
    && DataOf(s.output) == s.drained
    && forall k: nat :: k < |s.queues| ==> Delivered(c, s, k)
  }

  // ------------------------------------------------------- what pushes do

  /** The client's queue took a prefix of `fs`, and all of it if the client is still attached. */
  ghost predicate Took(q: Queue, r: Queue, stays: bool, fs: seq<OutFrame>) {
    && r.cap == q.cap
    && q.sent <= r.sent <= q.sent + fs
    && (stays ==> r.sent == q.sent + fs)
    && (q.closed ==> r.closed && r.sent == q.sent && (fs != [] ==> !stays))
  }

  ghost predicate Pushed(s: State, r: State, fs: seq<OutFrame>) {
    && InRange(s) && |r.queues| == |s.queues|
    && (r.client == s.client || r.client == None)
    && (s.client == None ==> r.queues == s.queues)
    && (forall j :: 0 <= j < |s.queues| && s.client != Some(j) ==> r.queues[j] == s.queues[j])
    && (s.client.Some? ==> Took(s.queues[s.client.value], r.queues[s.client.value], r.client.Some?, fs))
  }

  lemma PushedOne(s: State, f: OutFrame)
    requires InRange(s)
    ensures Pushed(s, PushOrDrop(s, f), [f])
  {
  }

  lemma PushedNothing(s: State)
    requires InRange(s)
    ensures Pushed(s, s, [])
  {
    if s.client.Some? {
      var q := s.queues[s.client.value];
      assert q.sent + [] == q.sent;
    }
  }

  lemma PushedThen(s: State, t: State, r: State, a: seq<OutFrame>, b: seq<OutFrame>)
    requires Pushed(s, t, a) && Pushed(t, r, b)
    ensures Pushed(s, r, a + b)
  {
    if s.client.Some? {
      var k := s.client.value;
      assert s.queues[k].sent + (a + b) == s.queues[k].sent + a + b;
    }
  }

  lemma {:induction false} PushedAll(s: State, fs: seq<OutFrame>)
    requires InRange(s)
    ensures Pushed(s, Forward(s, fs), fs)
  {
    hide Pushed, PushOrDrop;
    if fs == [] {
      PushedNothing(s);
    } else {
      PushedAll(s, Init(fs));
      PushedOne(Forward(s, Init(fs)), Last(fs));
      PushedThen(s, Forward(s, Init(fs)), Forward(s, fs), Init(fs), [Last(fs)]);
      assert fs == Init(fs) + [Last(fs)];
    }
  }

  /** Frames that one step may send to a client that has missed nothing. */
  ghost predicate Sendable(life: Lifecycle, life': Lifecycle, fs: seq<OutFrame>) {
    && (life.Dead? ==> life' == life && forall f :: f in fs ==> f == ExitFrame(life.status))
    && (forall i :: 0 <= i < |fs| && fs[i].ExitFrame? ==> i == |fs| - 1 && life' == Dead(fs[i].code))
  }

  /** The frames of one step, and how they relate the two states. */
  ghost predicate GoodPush(c: Config, s: State, r: State, fs: seq<OutFrame>) {
    && Pushed(s, r, fs)
    && r.attaches == s.attaches
    && r.output == s.output + DataIn(fs) && r.drained == s.drained + DataOf(fs)
    && Sendable(s.life, r.life, fs)
    && (StatusesOf(fs) == [] || (|StatusesOf(fs)| == 1 && Some(StatusesOf(fs)[0]) != s.lastStatus))
    && (r.client.Some? ==>
          && r.lastStatus == Some(Effective(c, r))
          && r.lastStatus == if StatusesOf(fs) == [] then s.lastStatus else Some(StatusesOf(fs)[0]))
  }

  lemma {:induction false} OnlyExits(fs: seq<OutFrame>)
    requires forall f :: f in fs ==> f.ExitFrame?
    ensures DataIn(fs) == [] && DataOf(fs) == [] && StatusesOf(fs) == []
  {
    if fs != [] {
      OnlyExits(Init(fs));
      assert Last(fs) in fs;
    }
  }

  /** Later output does not disturb what a queue was sent; a dead shell has none. */
  lemma UntouchedStays(life: Lifecycle, life': Lifecycle, sent: seq<OutFrame>, handshake: seq<OutFrame>,
                       tail: seq<OutFrame>, more: seq<OutFrame>)
    requires GapFree(sent, handshake, tail) && ExitsLast(life, sent, handshake, tail)
    requires life.Dead? ==> life' == life && more == []
    ensures GapFree(sent, handshake, tail + more) && ExitsLast(life', sent, handshake, tail + more)
  {
    hide DataIn;
    if life.Dead? {
      assert tail + more == tail;
    }
  }

  /** What a prefix of one step's frames does to a queue that had missed nothing. */
  lemma PushedStays(life: Lifecycle, life': Lifecycle, sent: seq<OutFrame>, handshake: seq<OutFrame>,
                    tail: seq<OutFrame>, fs: seq<OutFrame>, p: seq<OutFrame>)
    requires Complete(sent, handshake, tail) && ExitsLast(life, sent, handshake, tail)
    requires Sendable(life, life', fs) && p <= fs
    ensures GapFree(sent + p, handshake, tail + DataIn(fs))
    ensures p == fs ==> Complete(sent + p, handshake, tail + DataIn(fs))
    ensures ExitsLast(life', sent + p, handshake, tail + DataIn(fs))
  {
    hide DataIn, DataOf, StatusesOf;
    assert LiveFrames(sent + p, handshake) == LiveFrames(sent, handshake) + p;
    ContentsConcat(LiveFrames(sent, handshake), p);
    ContentsConcat(p, fs[|p|..]);
    assert fs == p + fs[|p|..];
    if life.Dead? {
      assert forall f :: f in fs ==> f.ExitFrame?;
      OnlyExits(fs);
      assert forall f :: f in p ==> f in fs;
      OnlyExits(p);
    }
    ExitStaysLast(life, life', sent, handshake, tail, fs, p);
  }

  lemma ExitStaysLast(life: Lifecycle, life': Lifecycle, sent: seq<OutFrame>, handshake: seq<OutFrame>,
                      tail: seq<OutFrame>, fs: seq<OutFrame>, p: seq<OutFrame>)
    requires Complete(sent, handshake, tail) && ExitsLast(life, sent, handshake, tail)
    requires Sendable(life, life', fs) && p <= fs
    requires handshake <= sent + p && DataIn(LiveFrames(sent + p, handshake)) == tail + DataIn(p)
    requires life.Dead? ==> DataIn(p) == DataIn(fs) == []
    ensures ExitsLast(life', sent + p, handshake, tail + DataIn(fs))
  {
    hide DataIn, DataOf, StatusesOf;
    var all := sent + p;
    forall i | 0 <= i < |all| && all[i].ExitFrame?
      ensures life' == Dead(all[i].code) && Complete(all, handshake, tail + DataIn(fs))
      ensures forall j :: i <= j < |all| ==> all[j] == all[i]
    {
      if i < |sent| {
        assert sent[i] == all[i];
        assert forall j :: 0 <= j < |p| ==> p[j] in fs;
      } else {
        assert fs[i - |sent|] == all[i];
        assert p == fs;
      }
    }
  }

  lemma DistinctGrows(snaps: seq<Snapshot>, x: Snapshot)
    requires Distinct(snaps) && snaps != [] && x != Last(snaps)
    ensures Distinct(snaps + [x])
  {
  }

  /** The statuses of a client that has missed nothing, after a prefix of one step's frames. */
  lemma StatusesStay(sent: seq<OutFrame>, last: Option<Snapshot>, fs: seq<OutFrame>, p: seq<OutFrame>)
    requires Distinct(StatusesOf(sent)) && LastStatusIs(sent, last) && p <= fs
    requires StatusesOf(fs) == [] || (|StatusesOf(fs)| == 1 && Some(StatusesOf(fs)[0]) != last)
    ensures Distinct(StatusesOf(sent + p))
    ensures p == fs ==> LastStatusIs(sent + p, if StatusesOf(fs) == [] then last else Some(StatusesOf(fs)[0]))
  {
    hide DataIn, DataOf, StatusesOf, Distinct;
    ContentsConcat(sent, p);
    ContentsConcat(p, fs[|p|..]);
    assert fs == p + fs[|p|..];
    if StatusesOf(p) != [] {
      assert StatusesOf(p) == [StatusesOf(fs)[0]];
      DistinctGrows(StatusesOf(sent), StatusesOf(fs)[0]);
    } else {
      assert StatusesOf(sent) + [] == StatusesOf(sent);
    }
  }

  /** One step's frames keep what is promised to one queue. */
  lemma PushKeepsQueue(c: Config, s: State, r: State, fs: seq<OutFrame>, k: nat)
    requires AllDelivered(c, s) && GoodPush(c, s, r, fs) && k < |s.queues|
    ensures Delivered(c, r, k)
  {
    hide DataIn, DataOf, StatusesOf, Effective, Shaped, GapFree, Complete, ExitsLast, Distinct, LastStatusIs;
    var q, q', a := s.queues[k], r.queues[k], s.attaches[k];
    assert Delivered(c, s, k);
    AtWithin(c, s, a);
    var tail := s.output[a.from..];
    assert r.output[a.from..] == tail + DataIn(fs);
    if s.life.Dead? {
      DeadSendsNoData(s.life, r.life, fs);
    }
    ShapedPersists(c, s, r, a, DataOf(fs));
    if Fits(q, a) {
      if s.client != Some(k) || q.closed {
        UntouchedStays(s.life, r.life, q.sent, a.handshake, tail, DataIn(fs));
      } else {
        var p := q'.sent[|q.sent|..];
        assert q'.sent == q.sent + p && p <= fs;
        PushedStays(s.life, r.life, q.sent, a.handshake, tail, fs, p);
        StatusesStay(q.sent, s.lastStatus, fs, p);
      }
    }
  }

  lemma ShapedPersists(c: Config, s: State, r: State, a: AttachRecord, bytes: seq<byte>)
    requires Shaped(c, s, a) && r.drained == s.drained + bytes && s.output <= r.output
    requires s.life.Dead? ==> r.life == s.life && bytes == []
    ensures Shaped(c, r, a)
  {
    assert r.drained[..a.at] == s.drained[..a.at] && r.output[..a.from] == s.output[..a.from];
  }

  lemma AtWithin(c: Config, s: State, a: AttachRecord)
    requires Shaped(c, s, a)
    ensures a.at <= |s.drained| && a.from <= |s.output|
  {
  }

  lemma DeadSendsNoData(life: Lifecycle, life': Lifecycle, fs: seq<OutFrame>)
    requires Sendable(life, life', fs) && life.Dead?
    ensures DataIn(fs) == [] && DataOf(fs) == []
  {
    OnlyExits(fs);
  }

  lemma PushKeeps(c: Config, s: State, r: State, fs: seq<OutFrame>)
    requires AllDelivered(c, s) && GoodPush(c, s, r, fs)
    ensures AllDelivered(c, r)
  {
    hide Delivered;
    forall k: nat | k < |r.queues|
      ensures Delivered(c, r, k)
    {
      PushKeepsQueue(c, s, r, fs, k);
    }
    ContentsConcat(s.output, DataIn(fs));
    DataInCarries(fs);
    assert InRange(r);
  }

  /** Picking the DATA frames out loses no data. */
  lemma {:induction false} DataInCarries(fs: seq<OutFrame>)
    ensures DataOf(DataIn(fs)) == DataOf(fs)
  {
    if fs != [] {
      DataInCarries(Init(fs));
      ContentsConcat(DataIn(Init(fs)), IfData(Last(fs)));
      ContentsOne(Last(fs));
    }
  }

  // ---------------------------------------------------------- every step

  /** Steps that send nothing and change no status. */
  lemma QuietKeeps(c: Config, s: State, r: State)
    requires AllDelivered(c, s)
    requires r.queues == s.queues && r.client == s.client && r.attaches == s.attaches
    requires r.drained == s.drained && r.output == s.output && r.life == s.life
    requires r.lastStatus == s.lastStatus && r.pollRunning == s.pollRunning
    ensures AllDelivered(c, r)
  {
    hide Delivered;
    PushedNothing(s);
    NoContents();
    assert s.drained + [] == s.drained && s.output + [] == s.output;
    PushKeeps(c, s, r, []);
  }

  lemma CloseKeeps(c: Config, s: State, graceMs: nat, now: nat)
    requires AllDelivered(c, s)
    ensures AllDelivered(c, OnClose(s, graceMs, now))
  {
    hide Delivered, Effective, Pushed, DataIn, DataOf, StatusesOf, Fresh;
    if s.life.Live? {
      CloseOnLive(s, graceMs, now);
      hide OnClose;
      QuietKeeps(c, s, OnClose(s, graceMs, now));
    } else {
      CloseOnDeadKeeps(c, s, graceMs, now);
    }
  }

  lemma CloseOnLive(s: State, graceMs: nat, now: nat)
    requires InRange(s) && s.life.Live?
    ensures var r := OnClose(s, graceMs, now);
            && r.queues == s.queues && r.client == s.client && r.attaches == s.attaches
            && r.drained == s.drained && r.output == s.output && r.life == s.life
            && r.lastStatus == s.lastStatus && r.pollRunning == s.pollRunning
  {
  }

  lemma CloseOnDeadKeeps(c: Config, s: State, graceMs: nat, now: nat)
    requires AllDelivered(c, s) && s.life.Dead?
    ensures AllDelivered(c, OnClose(s, graceMs, now))
  {
    hide Delivered, Effective, DataIn, DataOf, StatusesOf;
    var fs := [ExitFrame(s.life.status)];
    var r := OnClose(s, graceMs, now);
    PushedOne(s, fs[0]);
    ContentsOne(fs[0]);
    CloseEffects(s, graceMs, now);
    ClosePushes(s, graceMs, now);
    hide OnClose, PushOrDrop;
    assert s.drained + [] == s.drained && s.output + [] == s.output;
    assert Pushed(s, r, fs);
    PushKeeps(c, s, r, fs);
  }

  lemma ClosePushes(s: State, graceMs: nat, now: nat)
    requires InRange(s) && s.life.Dead?
    ensures var r := OnClose(s, graceMs, now);
            && r.queues == PushOrDrop(s, ExitFrame(s.life.status)).queues
            && r.client == None && r.attaches == s.attaches
  {
  }

  /** A status is sent exactly when it differs from the last one. */
  lemma StatusPush(c: Config, s: State) returns (fs: seq<OutFrame>)
    requires InRange(s)
    ensures Pushed(s, PushStatus(c, s), fs)
    ensures OnlyQueues(s.(lastStatus := Some(Effective(c, s))), PushStatus(c, s))
    ensures fs == if s.lastStatus == Some(Effective(c, s)) then [] else [StatusFrame(Effective(c, s))]
  {
    hide Effective;
    fs := if s.lastStatus == Some(Effective(c, s)) then [] else [StatusFrame(Effective(c, s))];
    PushedOne(s, StatusFrame(Effective(c, s)));
    PushedNothing(s);
  }

  lemma PollKeeps(c: Config, s: State, busy: bool)
    requires AllDelivered(c, s) && s.client.Some? && s.life.Live?
    ensures AllDelivered(c, PushStatus(c, s.(pollRunning := busy)))
  {
    hide Delivered, Effective, DataIn, DataOf, StatusesOf, Pushed;
    var s1 := s.(pollRunning := busy);
    var r := PushStatus(c, s1);
    var fs := StatusPush(c, s1);
    NoContents();
    if fs != [] {
      ContentsOne(fs[0]);
    }
    assert s.drained + [] == s.drained && s.output + [] == s.output;
    EffectiveUnchanged(c, s1, r);
    PushedFromAbsorbed(s, s1, r, fs);
    PushKeeps(c, s, r, fs);
  }

  /** The frames of a drain: data, then at most one STATUS, then EXIT if the shell has ended. */
  lemma ReadableKeeps(c: Config, s: State, bytes: seq<byte>, exit: Option<int>, busy: bool, now: nat)
    requires AllDelivered(c, s) && s.life.Live?
    ensures AllDelivered(c, OnReadable(c, s, bytes, exit, busy, now))
  {
    hide Delivered, Effective, Pushed, DataFrames, StatusesOf, DataIn, DataOf, Forward, PushOrDrop;
    var s1 := Absorb(s, bytes, exit);
    var s2 := Forward(s1, DataFrames(bytes));
    var s3 := Report(c, s2, busy);
    var r := OnReadable(c, s, bytes, exit, busy, now);
    PushedAll(s1, DataFrames(bytes));
    ForwardTouchesQueues(s1, DataFrames(bytes));
    var status := ReportPush(c, s2, busy);
    PushedThen(s1, s2, s3, DataFrames(bytes), status);
    var end: seq<OutFrame> := if exit.Some? then [ExitFrame(exit.value)] else [];
    EndPush(c, s3, exit, now);
    PushedThen(s1, s3, r, DataFrames(bytes) + status, end);
    var fs := DataFrames(bytes) + status + end;
    PushedFromAbsorbed(s, s1, r, fs);
    DrainContents(bytes, status, end);
    DrainSendable(s.life, r.life, bytes, status, end);
    EffectiveUnchanged(c, s3, r);
    assert GoodPush(c, s, r, fs);
    PushKeeps(c, s, r, fs);
  }

  lemma ReadFailedKeeps(c: Config, s: State, bytes: seq<byte>)
    requires AllDelivered(c, s) && s.life.Live?
    ensures AllDelivered(c, OnReadFailed(s, bytes))
  {
    hide Delivered, Effective, DataFrames, StatusesOf, DataIn, DataOf;
    var fs := DataFrames(bytes);
    DataFramesCarry(bytes);
    assert forall i :: 0 <= i < |fs| ==> fs[i] in fs;
    PushKeeps(c, s, OnReadFailed(s, bytes), fs);
  }

  lemma PushedFromAbsorbed(s: State, s1: State, r: State, fs: seq<OutFrame>)
    requires Pushed(s1, r, fs) && s1.queues == s.queues && s1.client == s.client
    ensures Pushed(s, r, fs)
  {
  }

  lemma EffectiveUnchanged(c: Config, s: State, r: State)
    requires r.drained == s.drained && r.pollRunning == s.pollRunning
    ensures Effective(c, r) == Effective(c, s)
  {
  }

  lemma ReportPush(c: Config, s: State, busy: bool) returns (fs: seq<OutFrame>)
    requires InRange(s)
    ensures var r := Report(c, s, busy);
            && Pushed(s, r, fs)
            && r == s.(queues := r.queues, client := r.client, lastStatus := r.lastStatus, pollRunning := r.pollRunning)
            && (fs == [] || (exists x :: fs == [StatusFrame(x)] && Some(x) != s.lastStatus && r.lastStatus == Some(x)))
            && (fs == [] ==> r.lastStatus == s.lastStatus)
            && (s.client.Some? ==> r.lastStatus == Some(Effective(c, r)))
  {
    fs := [];
    PushedNothing(s);
    if s.client.Some? {
      var s1 := if !Marked(c, s) && s.life.Live? then s.(pollRunning := busy) else s;
      fs := StatusPush(c, s1);
      EffectiveUnchanged(c, s1, Report(c, s, busy));
      hide Effective;
    }
  }

  lemma EndPush(c: Config, s: State, exit: Option<int>, now: nat)
    requires InRange(s)
    ensures var r := if exit.Some? then Finish(c, s, exit.value, now) else s;
            && Pushed(s, r, if exit.Some? then [ExitFrame(exit.value)] else [])
            && r.drained == s.drained && r.output == s.output && r.life == s.life && r.attaches == s.attaches
            && r.lastStatus == s.lastStatus && r.pollRunning == s.pollRunning
  {
    PushedNothing(s);
    if exit.Some? {
      PushedOne(s, ExitFrame(exit.value));
    }
  }

  lemma DrainContents(bytes: seq<byte>, status: seq<OutFrame>, end: seq<OutFrame>)
    requires status == [] || (|status| == 1 && status[0].StatusFrame?)
    requires end == [] || (|end| == 1 && end[0].ExitFrame?)
    ensures DataOf(DataFrames(bytes) + status + end) == bytes
    ensures DataIn(DataFrames(bytes) + status + end) == DataFrames(bytes)
    ensures StatusesOf(DataFrames(bytes) + status + end) == if status == [] then [] else [status[0].snap]
  {
    hide DataFrames, DataIn, DataOf, StatusesOf;
    DataFramesCarry(bytes);
    ContentsConcat(DataFrames(bytes) + status, end);
    ContentsConcat(DataFrames(bytes), status);
    NoContents();
    if status != [] {
      ContentsOne(status[0]);
      assert status == [status[0]];
    }
    if end != [] {
      ContentsOne(end[0]);
      assert end == [end[0]];
    }
  }

  lemma DrainSendable(life: Lifecycle, life': Lifecycle, bytes: seq<byte>, status: seq<OutFrame>, end: seq<OutFrame>)
    requires life.Live?
    requires status == [] || (|status| == 1 && status[0].StatusFrame?)
    requires end == [] || (|end| == 1 && end[0].ExitFrame? && life' == Dead(end[0].code))
    ensures Sendable(life, life', DataFrames(bytes) + status + end)
  {
    hide DataFrames;
    DataFramesCarry(bytes);
    var d := DataFrames(bytes);
    assert forall i :: 0 <= i < |d| ==> d[i] in d;
  }

  /** The new client's queue starts with its handshake. */
  lemma HandshakeDelivered(c: Config, s: State, req: AttachRequest)
    requires DataOf(s.output) == s.drained
    ensures var h := Handshake(c, s, req.wantChunks);
            var q := OfferAll(NewQueue(c.outQueue, req.consumer), h);
            && Shaped(c, s, AttachRecord(req.wantChunks, h, |s.drained|, |s.output|))
            && (|h| <= c.outQueue ==>
                  && GapFree(q.sent, h, []) && ExitsLast(s.life, q.sent, h, [])
                  && Distinct(StatusesOf(q.sent))
                  && (q.closed || (Complete(q.sent, h, []) && LastStatusIs(q.sent, Some(Effective(c, s))))))
  {
    hide DataFrames, OfferAll, Effective, GapFree, ExitsLast, Complete, LastStatusIs, Distinct;
    var replay := c.engine.replay(s.drained, Depth(req.wantChunks));
    var h := Handshake(c, s, req.wantChunks);
    var q := OfferAll(NewQueue(c.outQueue, req.consumer), h);
    assert s.drained[..|s.drained|] == s.drained && s.output[..|s.output|] == s.output;
    if |h| <= c.outQueue {
      OfferFits(c.outQueue, req.consumer, h);
      DataFramesCarry(replay);
      var end := if s.life.Dead? then [ExitFrame(s.life.status)] else [];
      PrefixOfHandshake(s.life, DataFrames(replay), Effective(c, s), end, q.sent);
    }
  }

  lemma PrefixOfHandshake(life: Lifecycle, d: seq<OutFrame>, snap: Snapshot, end: seq<OutFrame>, sent: seq<OutFrame>)
    requires forall f :: f in d ==> f.DataFrame?
    requires StatusesOf(d) == []
    requires end == if life.Dead? then [ExitFrame(life.status)] else []
    requires sent <= d + [StatusFrame(snap)] + end
    ensures var h := d + [StatusFrame(snap)] + end;
            && GapFree(sent, h, []) && ExitsLast(life, sent, h, [])
            && Distinct(StatusesOf(sent))
            && (sent == h ==> Complete(sent, h, []) && LastStatusIs(sent, Some(snap)))
  {
    hide DataIn, DataOf, StatusesOf, ExitsLast;
    var h := d + [StatusFrame(snap)] + end;
    ExitEndsHandshake(life, d, snap, end, sent);
    HandshakeStatuses(d, snap, end, sent);
    NoContents();
    assert sent == h ==> LiveFrames(sent, h) == [];
  }

  lemma HandshakeStatuses(d: seq<OutFrame>, snap: Snapshot, end: seq<OutFrame>, sent: seq<OutFrame>)
    requires StatusesOf(d) == [] && forall f :: f in end ==> f.ExitFrame?
    requires sent <= d + [StatusFrame(snap)] + end
    ensures StatusesOf(d + [StatusFrame(snap)] + end) == [snap]
    ensures Distinct(StatusesOf(sent))
  {
    hide DataIn, DataOf, StatusesOf;
    var h := d + [StatusFrame(snap)] + end;
    ContentsConcat(d + [StatusFrame(snap)], end);
    ContentsConcat(d, [StatusFrame(snap)]);
    ContentsOne(StatusFrame(snap));
    OnlyExits(end);
    assert StatusesOf(h) == [] + [snap] + [];
    ContentsConcat(sent, h[|sent|..]);
    assert h == sent + h[|sent|..];
    assert |StatusesOf(sent)| <= |StatusesOf(h)|;
  }

  lemma ExitEndsHandshake(life: Lifecycle, d: seq<OutFrame>, snap: Snapshot, end: seq<OutFrame>, sent: seq<OutFrame>)
    requires forall f :: f in d ==> f.DataFrame?
    requires end == if life.Dead? then [ExitFrame(life.status)] else []
    requires sent <= d + [StatusFrame(snap)] + end
    ensures ExitsLast(life, sent, d + [StatusFrame(snap)] + end, [])
  {
    hide DataIn;
    var h := d + [StatusFrame(snap)] + end;
    NoContents();
    assert forall i :: 0 <= i < |d| ==> h[i] == d[i] && d[i] in d;
    assert forall i :: 0 <= i < |sent| && sent[i].ExitFrame? ==> i == |h| - 1;
    assert sent == h ==> LiveFrames(sent, h) == [];
  }

  lemma NoContents()
    ensures DataIn([]) == [] && DataOf([]) == [] && StatusesOf([]) == []
  {
  }

  /** Quiet changes other than of the client keep what a queue was promised, except that its client is gone. */
  lemma OldQueueKeeps(c: Config, s: State, r: State, k: nat)
    requires AllDelivered(c, s) && k < |s.queues| < |r.queues| == |r.attaches|
    requires r.queues[k] == s.queues[k] && r.attaches[k] == s.attaches[k]
    requires r.drained == s.drained && r.output == s.output && r.life == s.life && r.client == Some(|s.queues|)
    ensures Delivered(c, r, k)
  {
    assert Delivered(c, s, k);
  }

  /** What an attach does to the queues, and what it leaves alone. */
  lemma AttachAdds(c: Config, s: State, req: AttachRequest, busy: bool)
    ensures var s1, r := Refreshed(c, s, busy), OnAttach(c, s, req, busy);
            var h := Handshake(c, s1, req.wantChunks);
            && r.queues == s.queues + [OfferAll(NewQueue(c.outQueue, req.consumer), h)]
            && r.attaches == s.attaches + [AttachRecord(req.wantChunks, h, |s.drained|, |s.output|)]
            && r.client == Some(|s.queues|) && r.lastStatus == Some(Effective(c, s1))
            && r.drained == s.drained == s1.drained && r.output == s.output == s1.output
            && r.life == s.life == s1.life && r.pollRunning == s1.pollRunning
  {
    hide Handshake, OfferAll, Marked;
    var s1 := Refreshed(c, s, busy);
    EffectiveUnchanged(c, s1, AttachClient(c, s1, req));
    hide Effective;
  }

  lemma AttachKeeps(c: Config, s: State, req: AttachRequest, busy: bool)
    requires AllDelivered(c, s)
    ensures AllDelivered(c, OnAttach(c, s, req, busy))
  {
    hide Effective, Handshake, OfferAll, Marked, StatusesOf, DataOf;
    hide GapFree, ExitsLast, Complete, LastStatusIs, Distinct;
    hide OnAttach, Refreshed, Shaped;
    var s1 := Refreshed(c, s, busy);
    var r := OnAttach(c, s, req, busy);
    AttachAdds(c, s, req, busy);
    EffectiveUnchanged(c, s1, r);
    HandshakeDelivered(c, s1, req);
    var n := |s.queues|;
    var a := r.attaches[n];
    OfferCap(c.outQueue, req.consumer, a.handshake);
    assert r.output[a.from..] == [];
    ShapedSame(c, s1, r, a);
    assert Delivered(c, r, n);
    forall k: nat | k < n
      ensures Delivered(c, r, k)
    {
      OldQueueKeeps(c, s, r, k);
    }
  }

  lemma ShapedSame(c: Config, s: State, r: State, a: AttachRecord)
    requires Shaped(c, s, a) && r.drained == s.drained && r.output == s.output && r.life == s.life
    ensures Shaped(c, r, a)
  {
  }

  lemma {:induction false} OfferCap(cap: nat, consumer: nat -> Consume, fs: seq<OutFrame>)
    ensures OfferAll(NewQueue(cap, consumer), fs).cap == cap
  {
    if fs != [] {
      OfferCap(cap, consumer, Init(fs));
    }
  }

  /** The commands that send nothing. */
  lemma QuietCommandKeeps(c: Config, s: State, cmd: SessionCommand, busy: bool, now: nat)
    requires InRange(s) && AllDelivered(c, s) && !cmd.Close? && !cmd.Attach?
    ensures AllDelivered(c, OnCommand(c, s, cmd, busy, now))
  {
    hide AllDelivered, Marked;
    QuietKeeps(c, s, OnCommand(c, s, cmd, busy, now));
  }

  lemma CommandKeeps(c: Config, s: State, cmd: SessionCommand, busy: bool, now: nat)
    requires InRange(s) && AllDelivered(c, s)
    ensures AllDelivered(c, OnCommand(c, s, cmd, busy, now))
  {
    match cmd {
      case Close(graceMs) =>
        CloseKeeps(c, s, graceMs, now);
      case Attach(req) =>
        AttachKeeps(c, s, req, busy);
      case _ =>
        QuietCommandKeeps(c, s, cmd, busy, now);
    }
    hide AllDelivered, OnClose, OnAttach;
  }

  lemma StepKeeps(c: Config, s: State, e: Event)
    requires InRange(s) && AllDelivered(c, s)
    ensures AllDelivered(c, Step(c, s, e))
  {
    hide AllDelivered, OnCommand, OnReadable, OnReadFailed, PushStatus, Effective, Marked;
    if Enabled(c, s, e) {
      match e {
        case Commanded(cmd, busy, now) => CommandKeeps(c, s, cmd, busy, now);
        case Readable(bytes, exit, busy, now) => ReadableKeeps(c, s, bytes, exit, busy, now);
        case ReadFailed(bytes) => ReadFailedKeeps(c, s, bytes);
        case PollTick(busy) => PollKeeps(c, s, busy);
        case _ => QuietKeeps(c, s, Step(c, s, e));
      }
    }
  }

  /**
   * In every run, every queue deep enough for its handshake has been sent, without a gap, the replay, one
   * STATUS, and whole live DATA frames of the drains since its attach; EXIT follows all output, and only the
   * same EXIT follows it; consecutive STATUS values differ. While its client is attached and has not hung
   * up, nothing is missing and the last STATUS queued is the current one.
   */
  lemma {:induction false} DeliveryHolds(c: Config, es: seq<Event>)
    ensures AllDelivered(c, Run(c, es))
  {
    hide AllDelivered, Step;
    if es == [] {
      OpenedDelivered(c);
    } else {
      DeliveryHolds(c, Init(es));
      StepKeeps(c, Run(c, Init(es)), Last(es));
    }
  }

  lemma OpenedDelivered(c: Config)
    ensures AllDelivered(c, Opened(c.size))
  {
    NoContents();
  }

  /** What a run has drained, piece by piece. */
  function Drains(c: Config, es: seq<Event>): seq<seq<byte>> {
    if es == [] then [] else Drains(c, Init(es)) + [Fed(c, Run(c, Init(es)), Last(es))]
  }

  /** The frames on offer to clients are whole drains, each cut into its own DATA frames. */
  lemma {:induction false} OutputIsDrains(c: Config, es: seq<Event>)
    ensures Run(c, es).drained == Flatten(Drains(c, es))
    ensures Run(c, es).output == Gather(DataFrames, Drains(c, es))
  {
    if es != [] {
      hide Step, Fed, DataFrames, Flatten;
      OutputIsDrains(c, Init(es));
      StepEffects(c, Run(c, Init(es)), Last(es));
      FlattenSnoc(Drains(c, Init(es)), Fed(c, Run(c, Init(es)), Last(es)));
      GatherSnoc(DataFrames, Drains(c, Init(es)), Fed(c, Run(c, Init(es)), Last(es)));
    } else {
      FlattenNothing();
    }
  }

  lemma FlattenNothing()
    ensures Flatten<byte>([]) == []
  {
  }

  /** In bytes: behind a handshake that fits, live data is what was drained since, up to a whole frame. */
  lemma {:induction false} LiveDataIsDrained(c: Config, es: seq<Event>, k: nat)
    ensures var s := Run(c, es);
            k < |s.queues| == |s.attaches| && Fits(s.queues[k], s.attaches[k])
            && s.attaches[k].handshake <= s.queues[k].sent ==>
              var live := LiveFrames(s.queues[k].sent, s.attaches[k].handshake);
              && s.attaches[k].at <= |s.drained|
              && DataOf(live) <= s.drained[s.attaches[k].at..]
              && (s.client == Some(k) && !s.queues[k].closed ==> DataOf(live) == s.drained[s.attaches[k].at..])
  {
    hide DataOf, DataIn, StatusesOf, Run;
    var s := Run(c, es);
    DeliveryHolds(c, es);
    if k < |s.queues| == |s.attaches| && Fits(s.queues[k], s.attaches[k])
       && s.attaches[k].handshake <= s.queues[k].sent {
      assert Delivered(c, s, k);
      var q, a := s.queues[k], s.attaches[k];
      var live, tail := LiveFrames(q.sent, a.handshake), s.output[a.from..];
      NoContents();
      DataInCarries(live);
      if q.sent == a.handshake {
        assert live == [];
      }
      assert DataIn(live) <= tail;
      ContentsConcat(DataIn(live), tail[|DataIn(live)|..]);
      assert tail == DataIn(live) + tail[|DataIn(live)|..];
      ContentsConcat(s.output[..a.from], tail);
      assert s.output == s.output[..a.from] + tail;
      assert s.drained == s.drained[..a.at] + DataOf(tail);
    }
  }

  // ------------------------------------------------- the end of a delivery

  /** A queue that is not the client's is left alone, and does not become the client's again. */
  lemma DetachStays(c: Config, s: State, e: Event, k: nat)
    requires InRange(s) && k < |s.queues| && s.client != Some(k)
    ensures var r := Step(c, s, e);
            k < |r.queues| && r.queues[k] == s.queues[k] && r.client != Some(k)
  {
    hide Effective, Marked, OnAttach, OnClose, OnReadable, PushStatus;
    if Enabled(c, s, e) {
      match e {
        case Commanded(cmd, busy, now) =>
          match cmd {
            case Close(graceMs) => CloseLeavesOthers(s, graceMs, now, k);
            case Attach(req) => AttachLeavesOthers(c, s, req, busy, k);
            case _ =>
          }
        case Readable(bytes, exit, busy, now) => ReadableLeavesOthers(c, s, bytes, exit, busy, now, k);
        case PollTick(busy) =>
          var _ := StatusPush(c, s.(pollRunning := busy));
        case _ =>
      }
    }
  }

  lemma {:induction false} RunConcat(c: Config, es: seq<Event>, more: seq<Event>)
    ensures Run(c, es + more) == Continue(c, Run(c, es), more)
  {
    hide Step;
    if more == [] {
      assert es + more == es;
    } else {
      RunConcat(c, es, Init(more));
      assert Init(es + more) == es + Init(more) && Last(es + more) == Last(more);
    }
  }

  lemma {:induction false} DetachedStays(c: Config, s: State, es: seq<Event>, k: nat)
    requires InRange(s) && k < |s.queues| && s.client != Some(k)
    ensures var r := Continue(c, s, es);
            k < |r.queues| && r.queues[k] == s.queues[k] && r.client != Some(k)
  {
    if es != [] {
      hide Step;
      DetachedStays(c, s, Init(es), k);
      DetachStays(c, Continue(c, s, Init(es)), Last(es), k);
    }
  }

  /** Once a queue is no longer the client's, by takeover or a failed send, the rest of the run sends it nothing. */
  lemma {:induction false} DetachIsFinal(c: Config, es: seq<Event>, more: seq<Event>, k: nat)
    ensures var s, r := Run(c, es), Run(c, es + more);
            k < |s.queues| && s.client != Some(k) ==>
              k < |r.queues| && r.queues[k] == s.queues[k] && r.client != Some(k)
  {
    RunConcat(c, es, more);
    if k < |Run(c, es).queues| && Run(c, es).client != Some(k) {
      DetachedStays(c, Run(c, es), more, k);
    }
  }

  lemma CloseLeavesOthers(s: State, graceMs: nat, now: nat, k: nat)
    requires InRange(s) && k < |s.queues| && s.client != Some(k)
    ensures var r := OnClose(s, graceMs, now);
            k < |r.queues| && r.queues[k] == s.queues[k] && r.client != Some(k)
  {
  }

  lemma AttachLeavesOthers(c: Config, s: State, req: AttachRequest, busy: bool, k: nat)
    requires InRange(s) && k < |s.queues| && s.client != Some(k)
    ensures var r := OnAttach(c, s, req, busy);
            k < |r.queues| && r.queues[k] == s.queues[k] && r.client != Some(k)
  {
    hide Effective, Marked, Handshake, OfferAll;
  }

  lemma ReadableLeavesOthers(c: Config, s: State, bytes: seq<byte>, exit: Option<int>, busy: bool, now: nat, k: nat)
    requires InRange(s) && k < |s.queues| && s.client != Some(k)
    ensures var r := OnReadable(c, s, bytes, exit, busy, now);
            k < |r.queues| && r.queues[k] == s.queues[k] && r.client != Some(k)
  {
    hide Effective, Forward, DataFrames, Finish, Report;
    var s1 := Absorb(s, bytes, exit);
    var s2 := Forward(s1, DataFrames(bytes));
    PushedAll(s1, DataFrames(bytes));
    var _ := ReportPush(c, s2, busy);
    EndPush(c, Report(c, s2, busy), exit, now);
  }

  // -------------------------------------------- polls stop mattering

  /** The engine never forgets that it has seen a prompt marker. */
  ghost predicate Latching(c: Config) {
    forall a: seq<byte>, b: seq<byte> :: c.engine.status(a).marked ==> c.engine.status(a + b).marked
  }

  /** The same event with another answer of the foreground poll. */
  function WithBusy(e: Event, busy: bool): Event {
    match e
    case Commanded(cmd, _, now) => Commanded(cmd, busy, now)
    case Readable(bytes, exit, _, now) => Readable(bytes, exit, busy, now)
    case PollTick(_) => PollTick(busy)
    case _ => e
  }

  function WithPolls(es: seq<Event>, busy: seq<bool>): seq<Event>
    requires |busy| == |es|
  {
    seq(|es|, i requires 0 <= i < |es| => WithBusy(es[i], busy[i]))
  }

  function Continue(c: Config, s: State, es: seq<Event>): (r: State)
    requires InRange(s)
    ensures InRange(r)
  {
    if es == [] then s else Step(c, Continue(c, s, Init(es)), Last(es))
  }

  lemma ReadableIgnoresPolls(c: Config, s: State, poll: bool, bytes: seq<byte>, exit: Option<int>,
                             busy: bool, busy': bool, now: nat)
    requires Latching(c) && InRange(s) && Marked(c, s)
    ensures OnReadable(c, s.(pollRunning := poll), bytes, exit, busy', now)
            == OnReadable(c, s, bytes, exit, busy, now).(pollRunning := poll)
  {
    var s1 := Absorb(s, bytes, exit);
    var frames := DataFrames(bytes);
    ForwardIgnoresPolls(s1, poll, frames);
    ForwardTouchesQueues(s1, frames);
    var t := Forward(s1, frames);
    hide Forward, DataFrames;
    assert Absorb(s.(pollRunning := poll), bytes, exit) == s1.(pollRunning := poll);
    ReportIgnoresPolls(c, t, poll, busy, busy');
    var u := Report(c, t, busy);
    hide Report;
    if exit.Some? {
      FinishIgnoresPolls(c, u, poll, exit.value, now);
    }
  }

  lemma {:induction false} ForwardIgnoresPolls(s: State, poll: bool, fs: seq<OutFrame>)
    requires InRange(s)
    ensures Forward(s.(pollRunning := poll), fs) == Forward(s, fs).(pollRunning := poll)
  {
    if fs != [] {
      ForwardIgnoresPolls(s, poll, Init(fs));
    }
  }

  lemma ReportIgnoresPolls(c: Config, s: State, poll: bool, busy: bool, busy': bool)
    requires InRange(s) && Marked(c, s)
    ensures Report(c, s.(pollRunning := poll), busy') == Report(c, s, busy).(pollRunning := poll)
  {
    assert Effective(c, s.(pollRunning := poll)) == Effective(c, s);
  }

  lemma FinishIgnoresPolls(c: Config, s: State, poll: bool, code: int, now: nat)
    requires InRange(s)
    ensures Finish(c, s.(pollRunning := poll), code, now) == Finish(c, s, code, now).(pollRunning := poll)
  {
  }

  lemma AttachIgnoresPolls(c: Config, s: State, poll: bool, req: AttachRequest, busy: bool, busy': bool)
    requires InRange(s) && Marked(c, s)
    ensures OnAttach(c, s.(pollRunning := poll), req, busy')
            == OnAttach(c, s, req, busy).(pollRunning := poll)
  {
    hide DataFrames, OfferAll;
    assert Effective(c, s.(pollRunning := poll)) == Effective(c, s);
    assert Handshake(c, s.(pollRunning := poll), req.wantChunks) == Handshake(c, s, req.wantChunks);
    hide Handshake;
  }

  lemma CloseIgnoresPolls(s: State, poll: bool, graceMs: nat, now: nat)
    requires InRange(s)
    ensures OnClose(s.(pollRunning := poll), graceMs, now) == OnClose(s, graceMs, now).(pollRunning := poll)
  {
  }

  lemma CommandIgnoresPolls(c: Config, s: State, poll: bool, cmd: SessionCommand,
                            busy: bool, busy': bool, now: nat)
    requires InRange(s) && Marked(c, s)
    ensures OnCommand(c, s.(pollRunning := poll), cmd, busy', now)
            == OnCommand(c, s, cmd, busy, now).(pollRunning := poll)
  {
    hide OnAttach, OnClose;
    match cmd {
      case Close(graceMs) => CloseIgnoresPolls(s, poll, graceMs, now);
      case Attach(req) => AttachIgnoresPolls(c, s, poll, req, busy, busy');
      case _ =>
    }
  }

  /** Behind the first prompt marker, neither the stored poll result nor a new one has any effect but on itself. */
  lemma StepIgnoresPolls(c: Config, s: State, e: Event, poll: bool, busy: bool)
    requires Latching(c) && InRange(s) && Marked(c, s)
    ensures Step(c, s.(pollRunning := poll), WithBusy(e, busy)) == Step(c, s, e).(pollRunning := poll)
  {
    hide OnReadable, OnCommand, OnReadFailed, PushStatus, Signalled;
    match e {
      case Commanded(cmd, b, now) => CommandIgnoresPolls(c, s, poll, cmd, b, busy, now);
      case Readable(bytes, exit, b, now) => ReadableIgnoresPolls(c, s, poll, bytes, exit, b, busy, now);
      case ReadFailed(bytes) => FailureIgnoresPolls(s, poll, bytes);
      case KillElapsed(now) =>
        if s.kill.Some? {
          TimersIgnorePolls(s, poll, now);
        }
      case _ =>
    }
  }

  lemma FailureIgnoresPolls(s: State, poll: bool, bytes: seq<byte>)
    ensures OnReadFailed(s.(pollRunning := poll), bytes) == OnReadFailed(s, bytes).(pollRunning := poll)
  {
  }

  lemma TimersIgnorePolls(s: State, poll: bool, now: nat)
    requires s.kill.Some?
    ensures Signalled(s.(pollRunning := poll), Kill(now, s.kill.value))
            == Signalled(s, Kill(now, s.kill.value)).(pollRunning := poll)
  {
  }

  /**
   * Once a prompt marker has been drained, what foreground polls answer, stored or new, cannot be seen in
   * anything any client is sent, nor anywhere else: only the stored poll result itself differs.
   */
  lemma {:induction false} PollsAreIgnored(c: Config, s: State, es: seq<Event>, poll: bool, busy: seq<bool>)
    requires Latching(c) && InRange(s) && Marked(c, s) && |busy| == |es|
    ensures Continue(c, s.(pollRunning := poll), WithPolls(es, busy))
            == Continue(c, s, es).(pollRunning := poll)
    ensures Marked(c, Continue(c, s, es))
    decreases |es|
  {
    hide Step, Marked;
    if es == [] {
      assert WithPolls(es, busy) == [];
    } else {
      PollsAreIgnored(c, s, Init(es), poll, Init(busy));
      assert Init(WithPolls(es, busy)) == WithPolls(Init(es), Init(busy));
      var t := Continue(c, s, Init(es));
      StepIgnoresPolls(c, t, Last(es), poll, Last(busy));
      StepStaysMarked(c, t, Last(es));
    }
  }

  lemma StepStaysMarked(c: Config, s: State, e: Event)
    requires Latching(c) && InRange(s) && Marked(c, s)
    ensures Marked(c, Step(c, s, e))
  {
    hide Step;
    StepEffects(c, s, e);
  }

  // ----------------------------------------------------------- takeovers

  /** An attach becomes the client exactly while the loop runs, be it over another client or behind a CLOSE. */
  lemma AttachTakesOverWhileRunning(c: Config, s: State, req: AttachRequest, busy: bool, now: nat)
    requires InRange(s)
    ensures var r := Step(c, s, Commanded(Attach(req), busy, now));
            && (r.client == Some(|s.queues|) <==> s.left.None?)
            && (s.left.None? ==>
                  && |r.queues| == |s.queues| + 1 && r.closing == s.closing && (r.left.Some? <==> s.life.Dead?))
  {
    if s.left.None? {
      AttachAdds(c, s, req, busy);
      AttachLeavesClosing(c, s, req, busy);
      hide OnAttach;
    }
  }

  lemma AttachLeavesClosing(c: Config, s: State, req: AttachRequest, busy: bool)
    ensures var r := OnAttach(c, s, req, busy);
            r.closing == s.closing && r.left == if s.life.Dead? then Some(AttachedWhenDead) else s.left
  {
    hide Effective, Marked, Handshake, OfferAll;
  }

  /** A CLOSE does not stop attaches: the next one is served, by a session that is closing and alive. */
  lemma ClosingStillAccepts(c: Config, graceMs: u32, req: AttachRequest, busy: bool, now: nat)
    ensures var s := Run(c, [Commanded(Close(graceMs), busy, now)] + [Commanded(Attach(req), busy, now)]);
            s.closing && s.life.Live? && s.left.None? && s.client == Some(0) && |s.queues| == 1
  {
    var close, attach := Commanded(Close(graceMs), busy, now), Commanded(Attach(req), busy, now);
    RunSnoc(c, [], close);
    RunSnoc(c, [close], attach);
    assert [] + [close] == [close];
    var s := Run(c, [close]);
    assert s.closing && s.life.Live? && s.left.None? && s.queues == [];
    hide Run, OnAttach;
    AttachTakesOverWhileRunning(c, s, req, busy, now);
    AttachAdds(c, s, req, busy);
  }

  lemma RunSnoc(c: Config, es: seq<Event>, e: Event)
    ensures Run(c, es + [e]) == Step(c, Run(c, es), e)
  {
    assert Init(es + [e]) == es;
  }

  // -------------------------------------------------------- second EXITs

  ghost predicate HasExit(fs: seq<OutFrame>) {
    exists i :: 0 <= i < |fs| && fs[i].ExitFrame?
  }

  /** No queue has been sent EXIT. */
  ghost predicate NoExits(s: State) {
    forall k :: 0 <= k < |s.queues| ==> !HasExit(s.queues[k].sent)
  }

  lemma SentNoExit(q: Queue, f: OutFrame)
    requires !HasExit(q.sent) && !f.ExitFrame?
    ensures !HasExit(TrySend(q, f).sent)
  {
  }

  lemma PushNoExit(s: State, f: OutFrame)
    requires InRange(s) && NoExits(s) && !f.ExitFrame?
    ensures NoExits(PushOrDrop(s, f))
  {
    hide TrySend, Accepts;
    if s.client.Some? {
      SentNoExit(s.queues[s.client.value], f);
    }
  }

  lemma {:induction false} ForwardNoExit(s: State, fs: seq<OutFrame>)
    requires InRange(s) && NoExits(s) && forall f :: f in fs ==> !f.ExitFrame?
    ensures NoExits(Forward(s, fs))
  {
    if fs != [] {
      hide PushOrDrop, NoExits;
      ForwardNoExit(s, Init(fs));
      assert Last(fs) in fs;
      PushNoExit(Forward(s, Init(fs)), Last(fs));
    }
  }

  lemma {:induction false} OfferNoExit(cap: nat, consumer: nat -> Consume, fs: seq<OutFrame>)
    requires forall f :: f in fs ==> !f.ExitFrame?
    ensures !HasExit(OfferAll(NewQueue(cap, consumer), fs).sent)
  {
    if fs != [] {
      hide TrySend, HasExit;
      OfferNoExit(cap, consumer, Init(fs));
      assert Last(fs) in fs;
      SentNoExit(OfferAll(NewQueue(cap, consumer), Init(fs)), Last(fs));
    } else {
      assert NewQueue(cap, consumer).sent == [];
    }
  }

  lemma StatusNoExit(c: Config, s: State)
    requires InRange(s) && NoExits(s)
    ensures NoExits(PushStatus(c, s))
  {
    hide PushOrDrop, Effective;
    PushNoExit(s, StatusFrame(Effective(c, s)));
  }

  lemma ReadableNoExit(c: Config, s: State, bytes: seq<byte>, busy: bool, now: nat)
    requires InRange(s) && NoExits(s)
    ensures NoExits(OnReadable(c, s, bytes, None, busy, now))
  {
    hide DataFrames, Forward, PushStatus, HasExit;
    var s1 := Absorb(s, bytes, None);
    DataFramesCarry(bytes);
    ForwardNoExit(s1, DataFrames(bytes));
    var s2 := Forward(s1, DataFrames(bytes));
    StatusNoExit(c, if !Marked(c, s2) && s2.life.Live? then s2.(pollRunning := busy) else s2);
  }

  lemma AttachNoExit(c: Config, s: State, req: AttachRequest, busy: bool)
    requires NoExits(s) && s.life.Live?
    ensures NoExits(OnAttach(c, s, req, busy))
  {
    hide DataFrames, OnAttach, OfferAll, HasExit;
    AttachAdds(c, s, req, busy);
    var s1 := Refreshed(c, s, busy);
    DataFramesCarry(c.engine.replay(s1.drained, Depth(req.wantChunks)));
    OfferNoExit(c.outQueue, req.consumer, Handshake(c, s1, req.wantChunks));
  }

  lemma StepNoExit(c: Config, s: State, e: Event)
    requires InRange(s) && NoExits(s) && s.life.Live? && Step(c, s, e).life.Live?
    ensures NoExits(Step(c, s, e))
  {
    hide OnAttach, OnReadable, PushStatus, NoExits, Marked, DataFrames;
    if Enabled(c, s, e) {
      match e {
        case Commanded(cmd, busy, now) =>
          match cmd {
            case Close(graceMs) => CloseOnLive(s, graceMs, now); SameQueues(s, OnClose(s, graceMs, now));
            case Attach(req) => AttachNoExit(c, s, req, busy);
            case _ => SameQueues(s, Step(c, s, e));
          }
        case Readable(bytes, exit, busy, now) =>
          ReadableEffects(c, s, bytes, exit, busy, now);
          ReadableNoExit(c, s, bytes, busy, now);
        case PollTick(busy) =>
          SameQueues(s, s.(pollRunning := busy));
          StatusNoExit(c, s.(pollRunning := busy));
        case _ => SameQueues(s, Step(c, s, e));
      }
    }
  }

  lemma SameQueues(s: State, r: State)
    requires NoExits(s) && r.queues == s.queues
    ensures NoExits(r)
  {
  }

  lemma DeadStays(c: Config, s: State, e: Event)
    requires InRange(s) && s.life.Dead?
    ensures Step(c, s, e).life == s.life
  {
    hide OnAttach, OnClose, OnReadable, PushStatus, Marked;
    if s.left.None? {
      match e {
        case Commanded(cmd, busy, now) =>
          match cmd {
            case Close(graceMs) => CloseEffects(s, graceMs, now);
            case Attach(req) => AttachEffects(c, s, req, busy);
            case _ =>
          }
        case _ =>
      }
    }
  }

  /** EXIT means that the shell is dead: nobody is told before, however shallow its queue. */
  lemma {:induction false} ExitMeansDead(c: Config, es: seq<Event>)
    ensures Run(c, es).life.Live? ==> NoExits(Run(c, es))
  {
    if es != [] {
      hide Step, NoExits;
      ExitMeansDead(c, Init(es));
      var s := Run(c, Init(es));
      if Run(c, es).life.Live? {
        if s.life.Dead? {
          DeadStays(c, s, Last(es));
        } else {
          StepNoExit(c, s, Last(es));
        }
      }
    }
  }

  lemma CloseOnDead(s: State, graceMs: nat, now: nat, k: nat)
    requires InRange(s) && k < |s.queues| && s.life.Dead?
    ensures var r := OnClose(s, graceMs, now);
            && k < |r.queues|
            && r.queues[k].sent == s.queues[k].sent
                 + if s.client == Some(k) && Accepts(s.queues[k]) then [ExitFrame(s.life.status)] else []
  {
  }

  /** Over a dead shell, a queue is sent something exactly on a CLOSE of its own client that finds room: EXIT. */
  lemma DeadSendsOnClose(c: Config, s: State, e: Event, k: nat)
    requires InRange(s) && k < |s.queues| && s.life.Dead?
    ensures var r := Step(c, s, e);
            && k < |r.queues|
            && r.queues[k].sent == s.queues[k].sent
                 + if s.left.None? && e.Commanded? && e.cmd.Close? && s.client == Some(k) && Accepts(s.queues[k])
                   then [ExitFrame(s.life.status)] else []
  {
    hide OnAttach, OnClose, Marked, Effective, OnReadable, Accepts, PushStatus;
    if s.left.None? && e.Commanded? {
      match e.cmd {
        case Close(graceMs) => CloseOnDead(s, graceMs, e.now, k);
        case Attach(req) => AttachAdds(c, s, req, e.busy);
        case _ =>
      }
    }
  }

  /**
   * When a client sees EXIT twice: a queue that was sent EXIT is sent another frame exactly when its client is
   * still attached and sends a CLOSE that finds room; that frame is an EXIT, and it ends the loop.
   */
  lemma {:induction false} SecondExitNeedsClose(c: Config, es: seq<Event>, e: Event, k: nat)
    ensures var s := Run(c, es);
            k < |s.queues| && HasExit(s.queues[k].sent) ==>
              var r := Step(c, s, e);
              && s.life.Dead? && k < |r.queues|
              && (r.queues[k].sent != s.queues[k].sent <==>
                    && s.left.None? && e.Commanded? && e.cmd.Close?
                    && s.client == Some(k) && Accepts(s.queues[k]))
              && (r.queues[k].sent != s.queues[k].sent ==>
                    r.left.Some? && r.queues[k].sent == s.queues[k].sent + [ExitFrame(s.life.status)])
  {
    var s := Run(c, es);
    ExitMeansDead(c, es);
    if k < |s.queues| && HasExit(s.queues[k].sent) {
      hide Run, HasExit;
      DeadSendsOnClose(c, s, e, k);
    }
  }

  /** A session whose engine never has anything to say, and what its clients are told first. */
  const SILENT := Config(Engine(_ => Status(false, None, false), (_, _) => []), 4, 0, (80, 24))
  const QUIET := Snapshot(false, None)

  function IdleAttach(now: nat): Event {
    Commanded(Attach(AttachRequest(0, 80, 24, Idle)), false, now)
  }

  lemma SilentAttach(now: nat)
    ensures var s := Run(SILENT, [IdleAttach(now)]);
            && s.client == Some(0) && s.life.Live? && s.left.None? && s.lastStatus == Some(QUIET) && !s.pollRunning
            && s.queues == [Queue(4, Idle, 1, 1, false, [StatusFrame(QUIET)])]
  {
    var s, req := Opened((80, 24)), AttachRequest(0, 80, 24, Idle);
    RunSnoc(SILENT, [], IdleAttach(now));
    assert [] + [IdleAttach(now)] == [IdleAttach(now)];
    NoFrames();
    AttachAdds(SILENT, s, req, false);
    AttachLeavesClosing(SILENT, s, req, false);
    var s1 := Refreshed(SILENT, s, false);
    var h := Handshake(SILENT, s1, 0);
    SilentStatus(s1);
    assert DataFrames(SILENT.engine.replay(s1.drained, Depth(0))) == [];
    assert h == [] + [StatusFrame(QUIET)] + [] == [StatusFrame(QUIET)] && Init(h) == [];
    assert OfferAll(NewQueue(4, Idle), []) == NewQueue(4, Idle);
    assert OfferAll(NewQueue(4, Idle), h) == TrySend(NewQueue(4, Idle), StatusFrame(QUIET));
    assert TrySend(NewQueue(4, Idle), StatusFrame(QUIET)) == Queue(4, Idle, 1, 1, false, [StatusFrame(QUIET)]);
    hide OnAttach, Handshake, OfferAll, Effective;
  }

  lemma SilentStatus(s: State)
    requires !s.pollRunning
    ensures Effective(SILENT, s) == QUIET && !Marked(SILENT, s)
  {
  }

  lemma SilentExit(s: State, code: int, now: nat)
    requires s.client == Some(0) && s.life.Live? && s.left.None? && s.lastStatus == Some(QUIET) && !s.pollRunning
    requires s.queues == [Queue(4, Idle, 1, 1, false, [StatusFrame(QUIET)])]
    ensures var r := Step(SILENT, s, Readable([], Some(code), false, now));
            && r.client == Some(0) && r.life == Dead(code)
            && r.left == (if s.closing then Some(ReapedAfterClose) else None)
            && r.queues == [Queue(4, Idle, 2, 2, false, [StatusFrame(QUIET), ExitFrame(code)])]
  {
    NoFrames();
    var s1 := Absorb(s, [], Some(code));
    assert Forward(s1, DataFrames([])) == s1;
    SilentStatus(s1);
    hide Effective, Marked, DataFrames;
    assert Report(SILENT, s1, false) == s1.(pollRunning := false) by {
      SilentStatus(s1.(pollRunning := false));
    }
    var q := Queue(4, Idle, 1, 1, false, [StatusFrame(QUIET)]);
    assert Consumed(q) == Queue(4, Idle, 2, 1, false, [StatusFrame(QUIET)]);
    assert TrySend(q, ExitFrame(code)) == Queue(4, Idle, 2, 2, false, [StatusFrame(QUIET), ExitFrame(code)]);
    assert OnReadable(SILENT, s, [], Some(code), false, now) == Finish(SILENT, s1.(pollRunning := false), code, now);
  }

  /** A run in which a client does: it stays attached over the shell's end, and then sends CLOSE. */
  lemma ClientSeesExitTwice(code: int, now: nat)
    ensures var exit, close := Readable([], Some(code), false, now), Commanded(Close(0), false, now);
            var s := Run(SILENT, [IdleAttach(now)] + [exit] + [close]);
            |s.queues| == 1 && s.queues[0].sent == [StatusFrame(QUIET), ExitFrame(code), ExitFrame(code)]
  {
    var exit, close := Readable([], Some(code), false, now), Commanded(Close(0), false, now);
    SilentAttach(now);
    RunSnoc(SILENT, [IdleAttach(now)], exit);
    RunSnoc(SILENT, [IdleAttach(now)] + [exit], close);
    hide Run, OnReadable;
    var s := Run(SILENT, [IdleAttach(now)]);
    SilentClosing(now);
    SilentExit(s, code, now);
  }

  lemma SilentClosing(now: nat)
    ensures !Run(SILENT, [IdleAttach(now)]).closing
  {
    RunSnoc(SILENT, [], IdleAttach(now));
    assert [] + [IdleAttach(now)] == [IdleAttach(now)];
    AttachLeavesClosing(SILENT, Opened((80, 24)), AttachRequest(0, 80, 24, Idle), false);
    hide OnAttach;
  }
}
