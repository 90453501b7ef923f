/** What the replay engine guarantees over whole runs: for every parser, input, watermark and replay depth. */
module ReplayTheorems {
  import opened Bytes
  import opened Callbacks
  import opened Prologue
  import opened Ring
  import opened Sink
  import opened Scanner

  // ---------------------------------------------------------- conservation

  lemma SpansConcat(a: seq<Span>, b: seq<Span>)
    ensures SpanBytes(a + b) == SpanBytes(a) + SpanBytes(b)
    ensures SpanCalls(a + b) == SpanCalls(a) + SpanCalls(b)
  {
    GatherConcat((s: Span) => s.bytes, a, b);
    GatherConcat((s: Span) => s.calls, a, b);
  }

  lemma SpansSnoc(spans: seq<Span>, s: Span)
    ensures SpanBytes(spans + [s]) == SpanBytes(spans) + s.bytes
    ensures SpanCalls(spans + [s]) == SpanCalls(spans) + s.calls
  {
    assert Init(spans + [s]) == spans;
  }

  lemma OneSpanContents(s: Span)
    ensures SpanBytes([s]) == s.bytes && SpanCalls([s]) == s.calls
  {
    SpansSnoc([], s);
    NoSpans();
    assert [] + [s] == [s];
  }

  lemma OneCall(s: SinkState, cb: Callback)
    ensures SinkFold(s, [cb]) == SinkAfter(s, cb)
  {
    assert Init([cb]) == [];
  }

  lemma SegmentUnfolds<P>(step: ParserStep<P>, start: P, input: seq<byte>, b: byte)
    ensures Segment(step, start, input + [b]) == SegmentStep(step, Segment(step, start, input), b)
  {
    assert Init(input + [b]) == input;
  }

  lemma SinkFoldSnoc(s: SinkState, cbs: seq<Callback>, cb: Callback)
    ensures SinkFold(s, cbs + [cb]) == SinkAfter(SinkFold(s, cbs), cb)
  {
    assert Init(cbs + [cb]) == cbs;
  }

  lemma SegmentNothing<P>(step: ParserStep<P>, start: P)
    ensures Segment(step, start, []) == Segmented(start, FRESH_SINK, [], 0, [], [])
  {
  }

  /** The parser by itself: its state after some bytes, and all callbacks on the way. */
  datatype Reading<P> = Reading(parser: P, calls: seq<Callback>)

  function Read<P>(step: ParserStep<P>, p: P, bytes: seq<byte>): Reading<P> {
    if bytes == [] then Reading(p, [])
    else
      var r := Read(step, p, Init(bytes));
      var (next, cbs) := step(r.parser, Last(bytes));
      Reading(next, r.calls + cbs)
  }

  function AllCalls<P>(step: ParserStep<P>, start: P, input: seq<byte>): seq<Callback> {
    Read(step, start, input).calls
  }

  /** The completed spans, in order, and then the open one are exactly the parsed bytes and their callbacks. */
  lemma {:induction false} SpansConserveInput<P>(step: ParserStep<P>, start: P, input: seq<byte>)
    ensures var g := Segment(step, start, input);
            && SpanBytes(g.spans) + g.pending == input
            && SpanCalls(g.spans) + g.calls == AllCalls(step, start, input)
            && g.parser == Read(step, start, input).parser
            && g.at + |g.pending| == |input|
            && g.sink.event == Nothing
  {
    hide SpanBytes, SpanCalls, SegmentStep;
    if input == [] {
      NoSpans();
    } else {
      SpansConserveInput(step, start, Init(input));
      StepConserves(step, Segment(step, start, Init(input)), Last(input));
      assert input == Init(input) + [Last(input)];
    }
  }

  /** One more byte goes, with its callbacks, to the end of the pending span, wherever that ends up. */
  lemma StepConserves<P>(step: ParserStep<P>, g: Segmented<P>, b: byte)
    ensures var h := SegmentStep(step, g, b);
            && SpanBytes(h.spans) + h.pending == SpanBytes(g.spans) + g.pending + [b]
            && SpanCalls(h.spans) + h.calls == SpanCalls(g.spans) + g.calls + step(g.parser, b).1
            && h.parser == step(g.parser, b).0
            && h.at + |h.pending| == g.at + |g.pending| + 1
            && h.sink.event == Nothing
  {
    hide SpanBytes, SpanCalls, SinkFold;
    var cbs := step(g.parser, b).1;
    var sink := SinkFold(g.sink, cbs);
    SpansSnoc(g.spans, Span(g.at, g.pending + [b], g.calls + cbs, sink.event, sink.visual));
  }

  lemma NoSpans()
    ensures SpanBytes([]) == [] && SpanCalls([]) == []
  {
  }

  // -------------------------------------------- full replay, and its cuts

  function KeptOnly(spans: seq<Span>): seq<Span> {
    if spans == [] then []
    else if Last(spans).event.Keeps() then KeptOnly(Init(spans)) + [Last(spans)]
    else KeptOnly(Init(spans))
  }

  predicate NoClear(spans: seq<Span>) {
    forall s :: s in spans ==> !s.event.ClearSeq?
  }

  /** The prologue of the last clear, or nothing. */
  function Base(spans: seq<Span>): seq<byte> {
    if spans == [] then []
    else if Last(spans).event.ClearSeq? then CLEAR_HOME + Serialized(Last(spans).after)
    else Base(Init(spans))
  }

  /** The spans kept since the last clear. */
  function Since(spans: seq<Span>): seq<Span> {
    if spans == [] then []
    else if Last(spans).event.ClearSeq? then []
    else if Last(spans).event.Keeps() then Since(Init(spans)) + [Last(spans)]
    else Since(Init(spans))
  }

  lemma {:induction false} SinceLastClear(before: seq<Span>, clear: Span, after: seq<Span>)
    requires clear.event.ClearSeq? && NoClear(after)
    ensures Base(before + [clear] + after) == CLEAR_HOME + Serialized(clear.after)
    ensures Since(before + [clear] + after) == KeptOnly(after)
  {
    var all := before + [clear] + after;
    if after == [] {
      assert all == before + [clear];
    } else {
      SinceLastClear(before, clear, Init(after));
      assert Init(all) == before + [clear] + Init(after);
      assert Last(after) in after;
    }
  }

  lemma {:induction false} SinceNoClear(spans: seq<Span>)
    requires NoClear(spans)
    ensures Base(spans) == [] && Since(spans) == KeptOnly(spans)
  {
    if spans != [] {
      SinceNoClear(Init(spans));
      assert Last(spans) in spans;
    }
  }

  /** The spans kept in a run of chunks. */
  function KeptIn(ps: seq<Piece>): seq<Span> {
    Gather((p: Piece) => p.kept, ps)
  }

  lemma KeptInSnoc(ps: seq<Piece>, p: Piece)
    ensures KeptIn(ps + [p]) == KeptIn(ps) + p.kept
  {
    assert Init(ps + [p]) == ps;
  }

  lemma KeptInNothing()
    ensures KeptIn([]) == []
  {
  }

  /** One span's effect on the kept spans of all chunks. */
  lemma KeptInStep(watermark: nat, ps: seq<Piece>, s: Span)
    requires ps != []
    ensures KeptIn(PieceStep(watermark, ps, s)) ==
            if s.event.ClearSeq? then [] else if s.event.Keeps() then KeptIn(ps) + [s] else KeptIn(ps)
  {
    hide KeptIn, Serialized, SpanBytes;
    var q := PieceStep(watermark, ps, s);
    KeptInNothing();
    if s.event.ClearSeq? {
      assert [] + q == q;
      KeptInSnoc([], q[0]);
    } else if s.event.Keeps() {
      var open := Piece(Last(ps).prologue, Last(ps).kept + [s]);
      KeptInSnoc(Init(ps), Last(ps));
      assert ps == Init(ps) + [Last(ps)];
      KeptInSnoc(Init(ps), open);
      KeptInSnoc(Init(ps) + [open], Piece(Serialized(s.after), []));
    }
  }

  /** Cutting never loses, adds or reorders a span: the chunks hold what was kept since the last clear. */
  lemma {:induction false} PiecesHoldSince(watermark: nat, spans: seq<Span>)
    ensures KeptIn(Pieces(watermark, spans)) == Since(spans)
    ensures Pieces(watermark, spans)[0].prologue == Base(spans)
  {
    hide Serialized, SpanBytes, KeptIn;
    if spans == [] {
      KeptInNothing();
      KeptInSnoc([], Piece([], []));
      assert [] + [Piece([], [])] == [Piece([], [])];
    } else {
      PiecesHoldSince(watermark, Init(spans));
      KeptInStep(watermark, Pieces(watermark, Init(spans)), Last(spans));
    }
  }

  lemma {:induction false} RenderedData(ps: seq<Piece>)
    ensures AllData(Rendered(ps)) == SpanBytes(KeptIn(ps))
  {
    if ps == [] {
      assert Rendered(ps) == [];
    } else {
      RenderedData(Init(ps));
      assert Init(Rendered(ps)) == Rendered(Init(ps));
      SpansConcat(KeptIn(Init(ps)), Last(ps).kept);
    }
  }

  /** Any replay is the first selected chunk's prologue, then the bytes of the spans kept from there on. */
  lemma ReplayIsKeptSpans(ps: seq<Piece>, want: nat)
    requires ps != []
    ensures var k := ReplayStart(|ps|, want);
            ReplayOf(Rendered(ps), want) == ps[k].prologue + SpanBytes(KeptIn(ps[k..]))
  {
    var k := ReplayStart(|ps|, want);
    assert Rendered(ps)[k..] == Rendered(ps[k..]);
    RenderedData(ps[k..]);
  }

  /** What a depth asks for: that many chunks from the end, the last one at least, and all if there are no more. */
  lemma DepthCountsChunks(ps: seq<Piece>, want: nat)
    requires ps != []
    ensures want <= 1 ==> ReplayOf(Rendered(ps), want) == Last(ps).prologue + SpanBytes(Last(ps).kept)
    ensures 1 <= want <= |ps| ==>
              var back := ps[|ps| - want..];
              ReplayOf(Rendered(ps), want) == back[0].prologue + SpanBytes(KeptIn(back))
    ensures want >= |ps| ==> ReplayOf(Rendered(ps), want) == ps[0].prologue + SpanBytes(KeptIn(ps))
  {
    hide ReplayOf, Rendered, SpanBytes, KeptIn;
    ReplayIsKeptSpans(ps, want);
    KeptInNothing();
    KeptInSnoc([], Last(ps));
    assert ps[|ps| - 1..] == [] + [Last(ps)] && [] + Last(ps).kept == Last(ps).kept;
    if want <= 1 {
      assert ReplayStart(|ps|, want) == |ps| - 1;
    }
    if 1 <= want <= |ps| {
      assert ReplayStart(|ps|, want) == |ps| - want;
    }
    if want >= |ps| {
      assert ReplayStart(|ps|, want) == 0 && ps[0..] == ps;
    }
  }

  /** A replay of all chunks depends on the spans alone: the watermark, and so the cuts, cannot be seen in it. */
  lemma {:induction false} FullReplayHidesCuts(watermark: nat, spans: seq<Span>, want: nat)
    ensures var ps := Pieces(watermark, spans);
            want >= |ps| ==> ReplayOf(Rendered(ps), want) == Base(spans) + SpanBytes(Since(spans))
  {
    var ps := Pieces(watermark, spans);
    ReplayIsKeptSpans(ps, want);
    PiecesHoldSince(watermark, spans);
    assert ps[0..] == ps;
  }

  // -------------------------------------- capped replay restores the state

  /** The parser reports only clean OSC fields. */
  ghost predicate Clean<P(!new)>(step: ParserStep<P>) {
    forall p: P, b: byte :: CleanCallbacks(step(p, b).1)
  }

  predicate TracksState(cb: Callback) {
    cb.Osc? || cb.Csi?
  }

  /** Callbacks that are kept whatever came before. */
  predicate AlwaysKept(cb: Callback) {
    cb.Print? || cb.Unhook? || (cb.Execute? && cb.control != BEL)
  }

  /**
   * If one byte causes several callbacks and an earlier one can change tracked state, the last one is
   * kept: as when CAN or SUB closes a control string. Every parser with at most one callback a byte is settled.
   */
  predicate SettledCalls(cbs: seq<Callback>) {
    forall i :: 0 <= i < |cbs| - 1 && TracksState(cbs[i]) ==> AlwaysKept(Last(cbs))
  }

  ghost predicate Settled<P(!new)>(step: ParserStep<P>) {
    forall p: P, b: byte :: SettledCalls(step(p, b).1)
  }

  /** A parser that makes at most one callback a byte is settled. */
  lemma OneCallbackIsSettled<P(!new)>(step: ParserStep<P>)
    requires forall p: P, b: byte :: |step(p, b).1| <= 1
    ensures Settled(step)
  {
  }

  function StateBehind(spans: seq<Span>): Visual {
    if spans == [] then FRESH else Last(spans).after
  }

  /** Each span leads from the state behind its predecessor to its own; one that is not kept leads nowhere. */
  ghost predicate Linked(spans: seq<Span>) {
    spans == [] ||
    (var s := Last(spans);
     && Linked(Init(spans))
     && WellFormed(s.after)
     && s.after == VisualFold(StateBehind(Init(spans)), s.calls)
     && (!s.event.Keeps() ==> s.after == StateBehind(Init(spans))))
  }

  /** A callback whose classification is not to keep changes no tracked state. */
  lemma UnkeptChangesNothing(v: Visual, stPending: Option<SegEvent>, cb: Callback)
    requires !EventOf(stPending, cb).Keeps()
    ensures VisualAfter(v, cb) == v
  {
  }

  lemma {:induction false} SinkFoldParts(s: SinkState, cbs: seq<Callback>)
    ensures SinkFold(s, cbs).visual == VisualFold(s.visual, cbs)
    ensures cbs != [] ==> SinkFold(s, cbs).event == EventOf(SinkFold(s, Init(cbs)).stPending, Last(cbs))
    ensures SinkFold(s, cbs).stPending == if cbs == [] then s.stPending else PendingAfter(Last(cbs))
  {
    if cbs != [] {
      SinkFoldParts(s, Init(cbs));
    }
  }

  lemma {:induction false} UntrackedChangesNothing(v: Visual, cbs: seq<Callback>)
    requires forall i :: 0 <= i < |cbs| ==> !TracksState(cbs[i])
    ensures VisualFold(v, cbs) == v
  {
    if cbs != [] {
      UntrackedChangesNothing(v, Init(cbs));
    }
  }

  /** A byte that does not end a kept span changes no tracked state. */
  lemma UnkeptByteChangesNothing(s: SinkState, cbs: seq<Callback>)
    requires SettledCalls(cbs) && s.event == Nothing && !SinkFold(s, cbs).event.Keeps()
    ensures SinkFold(s, cbs).visual == s.visual
  {
    SinkFoldParts(s, cbs);
    if cbs != [] {
      UntrackedChangesNothing(s.visual, Init(cbs));
      UnkeptChangesNothing(s.visual, SinkFold(s, Init(cbs)).stPending, Last(cbs));
    }
  }

  /** What holds of the segmentation of every input. */
  lemma {:induction false} SegmentIsLinked<P(!new)>(step: ParserStep<P>, start: P, input: seq<byte>)
    requires Clean(step) && Settled(step)
    ensures var g := Segment(step, start, input);
            && Linked(g.spans)
            && g.sink.visual == StateBehind(g.spans) == VisualFold(StateBehind(g.spans), g.calls)
            && WellFormed(g.sink.visual) && g.sink.event == Nothing
  {
    hide WellFormed, CleanCallbacks, SettledCalls, VisualAfter, SinkFold, VisualFold;
    if input == [] {
      assert WellFormed(FRESH) && VisualFold(FRESH, []) == FRESH by {
        FreshIsWellFormed();
      }
    } else {
      SegmentIsLinked(step, start, Init(input));
      var g := Segment(step, start, Init(input));
      var b := Last(input);
      var cbs := step(g.parser, b).1;
      var sink := SinkFold(g.sink, cbs);
      SinkFoldParts(g.sink, cbs);
      VisualStaysWellFormed(g.sink.visual, cbs);
      VisualFoldConcat(StateBehind(g.spans), g.calls, cbs);
      if !sink.event.Keeps() {
        UnkeptByteChangesNothing(g.sink, cbs);
      }
      var s := Span(g.at, g.pending + [b], g.calls + cbs, sink.event, sink.visual);
      assert Init(g.spans + [s]) == g.spans;
      FreshIsWellFormed();
      VisualFoldNothing(sink.visual);
    }
  }

  lemma FreshIsWellFormed()
    ensures WellFormed(FRESH) && VisualFold(FRESH, []) == FRESH
  {
  }

  lemma VisualFoldNothing(v: Visual)
    ensures VisualFold(v, []) == v
  {
  }

  /** The state reached by interpreting a chunk's prologue and then re-applying everything kept from there on. */
  function RestoredFrom(ps: seq<Piece>, k: nat): Visual
    requires k < |ps|
  {
    VisualFold(Restored(FRESH, ps[k].prologue), SpanCalls(KeptIn(ps[k..])))
  }

  /** Every chunk of a ring restores the state behind the last span. */
  lemma {:induction false} EveryChunkRestores(watermark: nat, spans: seq<Span>, k: nat)
    requires Linked(spans) && k < |Pieces(watermark, spans)|
    ensures RestoredFrom(Pieces(watermark, spans), k) == StateBehind(spans)
    decreases |spans|
  {
    hide Restored, Serialized, WellFormed, PieceStep, SpanCalls, VisualFold;
    var ps := Pieces(watermark, spans);
    if spans == [] {
      FreshRestores();
    } else {
      var s := Last(spans);
      var before := Pieces(watermark, Init(spans));
      assert Linked(Init(spans));
      forall i | 0 <= i < |before|
        ensures RestoredFrom(before, i) == StateBehind(Init(spans))
      {
        EveryChunkRestores(watermark, Init(spans), i);
      }
      StepRestores(watermark, before, s, StateBehind(Init(spans)), k);
    }
  }

  lemma FreshRestores()
    ensures RestoredFrom([Piece([], [])], 0) == FRESH
  {
    assert Interpret([]) == [];
    assert [Piece([], [])][0..] == [Piece([], [])];
    KeptInSnoc([], Piece([], []));
  }

  /** Restoring survives one more span. */
  lemma StepRestores(watermark: nat, ps: seq<Piece>, s: Span, before: Visual, k: nat)
    requires ps != [] && k < |PieceStep(watermark, ps, s)|
    requires WellFormed(s.after) && s.after == VisualFold(before, s.calls)
    requires !s.event.Keeps() ==> s.after == before
    requires forall i :: 0 <= i < |ps| ==> RestoredFrom(ps, i) == before
    ensures RestoredFrom(PieceStep(watermark, ps, s), k) == s.after
  {
    hide Restored, Serialized, WellFormed, SpanCalls, VisualFold, RestoredFrom;
    var q := PieceStep(watermark, ps, s);
    if s.event.ClearSeq? {
      LastChunkRestores([], CLEAR_HOME + Serialized(s.after), s.after);
      assert [] + q == q;
    } else if s.event.Keeps() {
      var grown := Init(ps) + [Piece(Last(ps).prologue, Last(ps).kept + [s])];
      if k < |ps| {
        GrowRestores(ps, s, k);
        if |q| > |ps| {
          EmptyChunkAdds(grown, Piece(Serialized(s.after), []), k);
        }
      } else {
        LastChunkRestores(grown, Serialized(s.after), s.after);
      }
    }
  }

  /** A fresh chunk restores the state that its prologue was printed from. */
  lemma LastChunkRestores(ps: seq<Piece>, prologue: seq<byte>, v: Visual)
    requires WellFormed(v)
    requires prologue == Serialized(v) || prologue == CLEAR_HOME + Serialized(v)
    ensures RestoredFrom(ps + [Piece(prologue, [])], |ps|) == v
  {
    hide Restored, Serialized, WellFormed, KeptIn, SpanCalls, VisualFold;
    PrologueRestores(v);
    ClearPrologueRestores(v);
    assert (ps + [Piece(prologue, [])])[|ps|..] == [] + [Piece(prologue, [])];
    KeptInSnoc([], Piece(prologue, []));
    KeptInNothing();
    NoSpans();
    VisualFoldNothing(v);
  }

  lemma EmptyChunkAdds(ps: seq<Piece>, p: Piece, k: nat)
    requires k < |ps| && p.kept == []
    ensures RestoredFrom(ps + [p], k) == RestoredFrom(ps, k)
  {
    hide Restored;
    assert (ps + [p])[k..] == ps[k..] + [p];
    KeptInSnoc(ps[k..], p);
    assert KeptIn(ps[k..]) + [] == KeptIn(ps[k..]);
  }

  lemma GrowRestores(ps: seq<Piece>, s: Span, k: nat)
    requires k < |ps|
    ensures var grown := Init(ps) + [Piece(Last(ps).prologue, Last(ps).kept + [s])];
            RestoredFrom(grown, k) == VisualFold(RestoredFrom(ps, k), s.calls)
  {
    hide Restored, VisualFold, SpanCalls;
    var open := Piece(Last(ps).prologue, Last(ps).kept + [s]);
    var grown := Init(ps) + [open];
    var front := ps[k..|ps| - 1];
    assert grown[k..] == front + [open] && ps[k..] == front + [Last(ps)];
    KeptInSnoc(front, open);
    KeptInSnoc(front, Last(ps));
    assert KeptIn(grown[k..]) == KeptIn(ps[k..]) + [s];
    SpansSnoc(KeptIn(ps[k..]), s);
    VisualFoldConcat(Restored(FRESH, ps[k].prologue), SpanCalls(KeptIn(ps[k..])), s.calls);
  }

  /**
   * Replaying any number of chunks restores the scanner's live state: the first selected prologue, read
   * on a fresh terminal, and the kept spans after it lead to exactly the visual state tracked now. The
   * replayed bytes are that prologue and those spans' bytes.
   */
  lemma {:induction false} CappedReplayRestores<P(!new)>(
    step: ParserStep<P>, start: P, input: seq<byte>, watermark: nat, want: nat)
    requires Clean(step) && Settled(step)
    ensures var g := Segment(step, start, input);
            var ps := Pieces(watermark, g.spans);
            var k := ReplayStart(|ps|, want);
            && ReplayOf(Rendered(ps), want) == ps[k].prologue + SpanBytes(KeptIn(ps[k..]))
            && RestoredFrom(ps, k) == g.sink.visual
  {
    hide RestoredFrom, SpanBytes;
    var g := Segment(step, start, input);
    var ps := Pieces(watermark, g.spans);
    var k := ReplayStart(|ps|, want);
    SegmentIsLinked(step, start, input);
    EveryChunkRestores(watermark, g.spans, k);
    ReplayIsKeptSpans(ps, want);
  }

  // --------------------------------------------- why parsers must settle

  const SET_BOLD := Csi([[1]], [], 'm' as int)
  const BOLD := FRESH.(sgr := [1])

  /** A parser that reports, for every byte, an SGR and then a bell. */
  function BoldThenBell(p: nat, b: byte): (nat, seq<Callback>) {
    (p, [SET_BOLD] + [Execute(BEL)])
  }

  lemma BoldIsTracked()
    ensures VisualAfter(FRESH, SET_BOLD) == BOLD
  {
    var params: seq<seq<u16>> := [[1]];
    FlattenSnoc([], [1]);
    assert [] + [[1]] == params;
    assert Flatten(params) == [1];
  }

  lemma BoldIsUnsettled()
    ensures !Settled(BoldThenBell)
  {
    var cbs := BoldThenBell(0, 0).1;
    assert cbs[0] == SET_BOLD && Last(cbs) == Execute(BEL) && |cbs| == 2;
    assert !SettledCalls(cbs) by { assert TracksState(cbs[0]) && 0 <= 0 < |cbs| - 1; }
  }

  /** The sink tracks the SGR, and then drops the span. */
  lemma BoldIsDropped()
    ensures SinkFold(FRESH_SINK, [SET_BOLD] + [Execute(BEL)]) == SinkState(BOLD, IDLE, DropSeq, None)
  {
    BoldIsTracked();
    OneCall(FRESH_SINK, SET_BOLD);
    SinkFoldSnoc(FRESH_SINK, [SET_BOLD], Execute(BEL));
    hide SinkFold, SgrOf;
  }

  /** Without that assumption a dropped span can carry state away: it is tracked, and no replay restores it. */
  lemma UnsettledParserLosesState(watermark: nat)
    requires watermark > 0
    ensures !Settled(BoldThenBell)
    ensures var g := Segment(BoldThenBell, 0, [0]);
            var ps := Pieces(watermark, g.spans);
            && |ps| == 1 && RestoredFrom(ps, 0) == FRESH
            && g.sink.visual == BOLD
  {
    BoldIsUnsettled();
    BoldIsDropped();
    FreshRestores();
    hide SinkFold, VisualAfter, Segment, SpanCalls, KeptIn, Settled, RestoredFrom, Gather;
    var cbs := [SET_BOLD] + [Execute(BEL)];
    SegmentUnfolds(BoldThenBell, 0, [], 0);
    SegmentNothing(BoldThenBell, 0);
    assert [] + [0] == [0] && [] + cbs == cbs;
    var s := Span(0, [0], cbs, DropSeq, BOLD);
    assert Segment(BoldThenBell, 0, [0]).spans == [] + [s];
    PiecesSnoc(watermark, [], s);
    assert Pieces(watermark, []) == [Piece([], [])];
  }
}
