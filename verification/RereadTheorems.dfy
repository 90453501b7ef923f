/**
 * What a parser makes of replayed bytes. A span's bytes mean the same again exactly if they are read in
 * the parser state in which they were read first; a cut, or a dropped span, can get in the way of that.
 */
module RereadTheorems {
  import opened Bytes
  import opened Callbacks
  import opened Prologue
  import opened Ring
  import opened Sink
  import opened Scanner
  import opened ReplayTheorems
  import opened SanitiserTheorems

  lemma {:induction false} ReadConcat<P>(step: ParserStep<P>, p: P, a: seq<byte>, b: seq<byte>)
    ensures var r := Read(step, p, a);
            var t := Read(step, r.parser, b);
            Read(step, p, a + b) == Reading(t.parser, r.calls + t.calls)
  {
    if b == [] {
      assert a + b == a;
      var r := Read(step, p, a);
      assert r.calls + [] == r.calls;
    } else {
      ReadConcat(step, p, a, Init(b));
      assert Init(a + b) == a + Init(b) && Last(a + b) == Last(b);
    }
  }

  // ------------------------------------------- where spans begin and end

  /** Callbacks that complete a span. */
  predicate Completes(cbs: seq<Callback>) {
    cbs != [] && !Last(cbs).Hook? && !Last(cbs).Put?
  }

  predicate CompletesAt<P>(step: ParserStep<P>, p: P, bytes: seq<byte>, i: nat)
    requires i < |bytes|
  {
    Completes(step(Read(step, p, bytes[..i]).parser, bytes[i]).1)
  }

  /** Read from `p`, the bytes complete no span. */
  ghost predicate StaysOpen<P>(step: ParserStep<P>, p: P, bytes: seq<byte>) {
    forall i :: 0 <= i < |bytes| ==> !CompletesAt(step, p, bytes, i)
  }

  /** Read from `p`, the bytes are one span: the last one completes it. */
  ghost predicate OneSpan<P>(step: ParserStep<P>, p: P, bytes: seq<byte>) {
    bytes != [] && StaysOpen(step, p, Init(bytes)) && CompletesAt(step, p, bytes, |bytes| - 1)
  }

  lemma StaysOpenStep<P>(step: ParserStep<P>, p: P, bytes: seq<byte>, b: byte)
    requires StaysOpen(step, p, bytes)
    ensures Completes(step(Read(step, p, bytes).parser, b).1) ==> OneSpan(step, p, bytes + [b])
    ensures !Completes(step(Read(step, p, bytes).parser, b).1) ==> StaysOpen(step, p, bytes + [b])
  {
    hide Completes, Read;
    var more := bytes + [b];
    assert Init(more) == bytes && more[..|bytes|] == bytes;
    assert more[|more| - 1] == b && |more| - 1 == |bytes|;
    forall i | 0 <= i < |bytes|
      ensures !CompletesAt(step, p, more, i)
    {
      assert more[..i] == bytes[..i];
      assert !CompletesAt(step, p, bytes, i);
    }
  }

  lemma NeverPendsNothing<P>(step: ParserStep<P>, start: P, input: seq<byte>)
    ensures Segment(step, start, input).sink.stPending != Some(Nothing)
  {
    SegmentIsClassified(step, start, input);
  }

  /** Whether a byte completes a span depends on its callbacks alone. */
  lemma EventFires(s: SinkState, cbs: seq<Callback>)
    requires s.event == Nothing && s.stPending != Some(Nothing)
    ensures !SinkFold(s, cbs).event.Nothing? <==> Completes(cbs)
  {
    SinkFoldParts(s, cbs);
    if cbs != [] {
      SinkFoldParts(s, Init(cbs));
    }
  }

  /** One more byte of an input: it ends the open span, or joins it. */
  lemma SegmentSnoc<P>(step: ParserStep<P>, start: P, input: seq<byte>, b: byte)
    ensures var g, h := Segment(step, start, input), Segment(step, start, input + [b]);
            var (next, cbs) := step(g.parser, b);
            && h.parser == next
            && if Completes(cbs) then
                 && h.pending == [] && h.calls == [] && h.at == g.at + |g.pending| + 1
                 && |h.spans| == |g.spans| + 1 && Init(h.spans) == g.spans
                 && Last(h.spans).at == g.at
                 && Last(h.spans).bytes == g.pending + [b] && Last(h.spans).calls == g.calls + cbs
               else
                 h.spans == g.spans && h.at == g.at && h.pending == g.pending + [b] && h.calls == g.calls + cbs
  {
    hide SinkFold, Completes;
    assert Init(input + [b]) == input;
    var g := Segment(step, start, input);
    NeverPendsNothing(step, start, input);
    SegmentIsClassified(step, start, input);
    EventFires(g.sink, step(g.parser, b).1);
  }

  /** The parser state in which a span was read first, and the one it left behind. */
  function Entry<P>(step: ParserStep<P>, start: P, input: seq<byte>, s: Span): P {
    Read(step, start, input[..if s.at <= |input| then s.at else |input|]).parser
  }

  function Exit<P>(step: ParserStep<P>, start: P, input: seq<byte>, s: Span): P {
    Read(step, Entry(step, start, input, s), s.bytes).parser
  }

  /** No span is open. */
  predicate AtBoundary<P>(step: ParserStep<P>, start: P, input: seq<byte>) {
    Segment(step, start, input).pending == []
  }

  /** A span is a slice of the input, between boundaries; its entry state reads it as one span, with its callbacks. */
  ghost predicate InPlace<P>(step: ParserStep<P>, start: P, input: seq<byte>, s: Span) {
    && s.at + |s.bytes| <= |input|
    && input[s.at..s.at + |s.bytes|] == s.bytes
    && AtBoundary(step, start, input[..s.at]) && AtBoundary(step, start, input[..s.at + |s.bytes|])
    && OneSpan(step, Entry(step, start, input, s), s.bytes)
    && Read(step, Entry(step, start, input, s), s.bytes).calls == s.calls
  }

  lemma InPlaceStays<P>(step: ParserStep<P>, start: P, input: seq<byte>, s: Span, b: byte)
    requires InPlace(step, start, input, s)
    ensures InPlace(step, start, input + [b], s)
  {
    hide Read, OneSpan, AtBoundary;
    var more := input + [b];
    assert more[..s.at] == input[..s.at] && more[..s.at + |s.bytes|] == input[..s.at + |s.bytes|];
    assert more[s.at..s.at + |s.bytes|] == input[s.at..s.at + |s.bytes|];
  }

  /** Every completed span is in place, and so is the open one. */
  lemma {:induction false} SpansAreInPlace<P>(step: ParserStep<P>, start: P, input: seq<byte>)
    ensures var g := Segment(step, start, input);
            && g.at + |g.pending| == |input| && input[g.at..] == g.pending && AtBoundary(step, start, input[..g.at])
            && StaysOpen(step, Read(step, start, input[..g.at]).parser, g.pending)
            && g.calls == Read(step, Read(step, start, input[..g.at]).parser, g.pending).calls
            && forall s :: s in g.spans ==> InPlace(step, start, input, s)
  {
    hide InPlace, Read, StaysOpen, OneSpan, Completes, Segment;
    SpansConserveInput(step, start, input);
    if input == [] {
      NothingIsInPlace(step, start);
    } else {
      var before, b := Init(input), Last(input);
      assert input == before + [b];
      SpansAreInPlace(step, start, before);
      SpansConserveInput(step, start, before);
      SegmentSnoc(step, start, before, b);
      OpenSpanGrows(step, start, before, b);
      var g, h := Segment(step, start, before), Segment(step, start, input);
      forall s | s in g.spans
        ensures InPlace(step, start, input, s)
      {
        InPlaceStays(step, start, before, s, b);
      }
    }
  }

  lemma NothingIsInPlace<P>(step: ParserStep<P>, start: P)
    ensures Segment(step, start, []) == Segmented(start, FRESH_SINK, [], 0, [], [])
    ensures Read(step, start, []) == Reading(start, [])
    ensures StaysOpen(step, start, []) && AtBoundary(step, start, [])
  {
  }

  /** The step for the open span: one more byte completes it, in place, or leaves it open. */
  lemma OpenSpanGrows<P>(step: ParserStep<P>, start: P, input: seq<byte>, b: byte)
    requires var g := Segment(step, start, input);
             && g.at + |g.pending| == |input| && input[g.at..] == g.pending && AtBoundary(step, start, input[..g.at])
             && StaysOpen(step, Read(step, start, input[..g.at]).parser, g.pending)
             && g.calls == Read(step, Read(step, start, input[..g.at]).parser, g.pending).calls
    ensures var h, more := Segment(step, start, input + [b]), input + [b];
            && h.at + |h.pending| == |more| && more[h.at..] == h.pending && AtBoundary(step, start, more[..h.at])
            && StaysOpen(step, Read(step, start, more[..h.at]).parser, h.pending)
            && h.calls == Read(step, Read(step, start, more[..h.at]).parser, h.pending).calls
            && (h.spans == Segment(step, start, input).spans
                || (h.spans != [] && Init(h.spans) == Segment(step, start, input).spans
                    && InPlace(step, start, more, Last(h.spans))))
  {
    hide StaysOpen, OneSpan, Completes, Segment, Read;
    var g, more := Segment(step, start, input), input + [b];
    var p := Read(step, start, input[..g.at]).parser;
    assert input == input[..g.at] + g.pending;
    ReadConcat(step, start, input[..g.at], g.pending);
    SpansConserveInput(step, start, input);
    SegmentSnoc(step, start, input, b);
    StaysOpenStep(step, p, g.pending, b);
    ReadSnoc(step, p, g.pending, b);
    assert more[..g.at] == input[..g.at];
    if Completes(step(g.parser, b).1) {
      var s := Last(Segment(step, start, more).spans);
      assert more[s.at..s.at + |s.bytes|] == s.bytes;
      NothingIsInPlace(step, Read(step, start, more).parser);
      assert more[..|more|] == more && more[|more|..] == [];
    } else {
      assert more[g.at..] == g.pending + [b];
    }
  }

  lemma ReadSnoc<P>(step: ParserStep<P>, p: P, bytes: seq<byte>, b: byte)
    ensures var r := Read(step, p, bytes);
            var (next, cbs) := step(r.parser, b);
            Read(step, p, bytes + [b]) == Reading(next, r.calls + cbs)
  {
    assert Init(bytes + [b]) == bytes;
  }

  // ------------------------------------ when replayed bytes mean the same

  /** The parser state that the kept spans before the `i`-th leave. */
  function Behind<P>(step: ParserStep<P>, start: P, input: seq<byte>, ts: seq<Span>, i: nat): P
    requires i < |ts|
  {
    if i == 0 then start else Exit(step, start, input, ts[i - 1])
  }

  /**
   * The kept spans join up: the first was read in the parser's initial state, as after a cut at ground,
   * and every other one in the state its predecessor left.
   */
  ghost predicate JoinsUp<P>(step: ParserStep<P>, start: P, input: seq<byte>, ts: seq<Span>) {
    forall i :: 0 <= i < |ts| ==> Entry(step, start, input, ts[i]) == Behind(step, start, input, ts, i)
  }

  /** Read again by a fresh parser, every kept span meets the parser state that it was read in first. */
  ghost predicate SameStates<P>(step: ParserStep<P>, start: P, input: seq<byte>, ts: seq<Span>) {
    forall i :: 0 <= i < |ts| ==>
      Read(step, start, SpanBytes(ts[..i])).parser == Entry(step, start, input, ts[i])
  }

  /** One kept span further. */
  lemma ReadKept<P>(step: ParserStep<P>, p: P, ts: seq<Span>, i: nat)
    requires 0 < i <= |ts|
    ensures Read(step, p, SpanBytes(ts[..i])).parser
            == Read(step, Read(step, p, SpanBytes(ts[..i - 1])).parser, ts[i - 1].bytes).parser
  {
    hide Read, SpanBytes;
    assert ts[..i] == ts[..i - 1] + [ts[i - 1]];
    SpansSnoc(ts[..i - 1], ts[i - 1]);
    ReadConcat(step, p, SpanBytes(ts[..i - 1]), ts[i - 1].bytes);
  }

  lemma FrontJoinsUp<P>(step: ParserStep<P>, start: P, input: seq<byte>, ts: seq<Span>)
    requires JoinsUp(step, start, input, ts) && ts != []
    ensures JoinsUp(step, start, input, Init(ts))
  {
    forall i | 0 <= i < |ts| - 1
      ensures Entry(step, start, input, Init(ts)[i]) == Behind(step, start, input, Init(ts), i)
    {
      assert Entry(step, start, input, ts[i]) == Behind(step, start, input, ts, i);
    }
  }

  lemma {:induction false} JoinedStates<P>(step: ParserStep<P>, start: P, input: seq<byte>, ts: seq<Span>, i: nat)
    requires JoinsUp(step, start, input, ts) && i < |ts|
    ensures Read(step, start, SpanBytes(ts[..i])).parser == Entry(step, start, input, ts[i])
  {
    hide Read, SpanBytes, Entry;
    if i == 0 {
      NoSpans();
      NothingIsInPlace(step, start);
      assert SpanBytes(ts[..0]) == SpanBytes([]);
      assert Entry(step, start, input, ts[0]) == start;
    } else {
      JoinedStates(step, start, input, ts, i - 1);
      ReadKept(step, start, ts, i);
    }
  }

  /** The exact condition for that: the kept spans join up. */
  lemma SameStatesIffJoinsUp<P>(step: ParserStep<P>, start: P, input: seq<byte>, ts: seq<Span>)
    ensures SameStates(step, start, input, ts) <==> JoinsUp(step, start, input, ts)
  {
    if JoinsUp(step, start, input, ts) {
      forall i | 0 <= i < |ts|
        ensures Read(step, start, SpanBytes(ts[..i])).parser == Entry(step, start, input, ts[i])
      {
        JoinedStates(step, start, input, ts, i);
      }
    }
    if SameStates(step, start, input, ts) {
      forall i | 0 <= i < |ts|
        ensures Entry(step, start, input, ts[i]) == Behind(step, start, input, ts, i)
      {
        assert ts[..0] == [];
        if i > 0 {
          hide Read, SpanBytes, Entry;
          ReadKept(step, start, ts, i);
        }
      }
    }
  }

  /** Kept spans that join up are read again, by a fresh parser, as the very callbacks recorded with them. */
  lemma {:induction false} JoinedCalls<P>(step: ParserStep<P>, start: P, input: seq<byte>, ts: seq<Span>)
    requires JoinsUp(step, start, input, ts) && forall t :: t in ts ==> InPlace(step, start, input, t)
    ensures Read(step, start, SpanBytes(ts)).calls == SpanCalls(ts)
  {
    hide Read, SpanBytes, SpanCalls, Entry, OneSpan;
    if ts == [] {
      NoSpans();
      NothingIsInPlace(step, start);
    } else {
      var front, t := Init(ts), Last(ts);
      assert ts == front + [t] && ts[..|ts| - 1] == front;
      FrontJoinsUp(step, start, input, ts);
      JoinedCalls(step, start, input, front);
      JoinedStates(step, start, input, ts, |ts| - 1);
      SpansSnoc(front, t);
      ReadConcat(step, start, SpanBytes(front), t.bytes);
      assert InPlace(step, start, input, t);
      assert Read(step, start, SpanBytes(front)).parser == Entry(step, start, input, t);
    }
  }

  /** Nothing was dropped in between: each span begins where its predecessor ends. */
  predicate Contiguous(ts: seq<Span>) {
    forall i :: 0 < i < |ts| ==> ts[i].at == ts[i - 1].at + |ts[i - 1].bytes|
  }

  /** Then it is the cut alone that decides: they join up exactly if it was made at ground. */
  lemma {:induction false} ContiguousJoinsUpIffCutAtGround<P>(
    step: ParserStep<P>, start: P, input: seq<byte>, ts: seq<Span>)
    requires Contiguous(ts) && forall t :: t in ts ==> InPlace(step, start, input, t)
    ensures JoinsUp(step, start, input, ts) <==> ts == [] || Entry(step, start, input, ts[0]) == start
  {
    hide Read, OneSpan, AtBoundary;
    if ts != [] {
      assert InPlace(step, start, input, ts[0]);
      assert Behind(step, start, input, ts, 0) == start;
    }
    forall i | 0 < i < |ts|
      ensures Entry(step, start, input, ts[i]) == Behind(step, start, input, ts, i)
    {
      var s, t := ts[i - 1], ts[i];
      assert InPlace(step, start, input, s) && InPlace(step, start, input, t);
      assert input[..t.at] == input[..s.at] + s.bytes;
      ReadConcat(step, start, input[..s.at], s.bytes);
    }
  }

  // ---------------------------------------------- a replay, read again

  /** All spans kept since the last clear are in place. */
  lemma {:induction false} SinceIsAmong(spans: seq<Span>)
    ensures forall s :: s in Since(spans) ==> s in spans
  {
    if spans != [] {
      SinceIsAmong(Init(spans));
    }
  }

  lemma ReplayedAreInPlace<P>(step: ParserStep<P>, start: P, input: seq<byte>, watermark: nat, k: nat)
    requires k <= |Pieces(watermark, Segment(step, start, input).spans)|
    ensures forall t :: t in KeptIn(Pieces(watermark, Segment(step, start, input).spans)[k..]) ==>
              InPlace(step, start, input, t) && KeptToken(t)
  {
    hide InPlace, KeptIn, KeptToken, Classified, Segment;
    var spans := Segment(step, start, input).spans;
    SpansAreInPlace(step, start, input);
    SegmentIsClassified(step, start, input);
    KeptSpansAreTokens(spans);
    PiecesHoldSince(watermark, spans);
    SinceIsAmong(spans);
    KeptInSplits(Pieces(watermark, spans), k);
  }

  /** The visual state of a run is what all its callbacks make of a fresh one. */
  lemma {:induction false} VisualOfRun<P>(step: ParserStep<P>, start: P, input: seq<byte>)
    ensures Segment(step, start, input).sink.visual == VisualFold(FRESH, AllCalls(step, start, input))
  {
    if input != [] {
      hide VisualFold, SinkFold;
      var before := Init(input);
      VisualOfRun(step, start, before);
      SpansConserveInput(step, start, before);
      var g := Segment(step, start, before);
      var cbs := step(g.parser, Last(input)).1;
      SinkFoldParts(g.sink, cbs);
      VisualFoldConcat(FRESH, AllCalls(step, start, before), cbs);
    } else {
      VisualFoldNothing(FRESH);
    }
  }

  /** The parser reads a prologue from its initial state, and back to it, as the control functions printed. */
  ghost predicate ReadsPrologue<P>(step: ParserStep<P>, start: P, prologue: seq<byte>) {
    Read(step, start, prologue) == Reading(start, Interpret(prologue))
  }

  /** It does so with every prologue that can be printed. */
  ghost predicate ReadsPrologues<P>(step: ParserStep<P>, start: P) {
    forall v: Visual :: WellFormed(v) ==>
      ReadsPrologue(step, start, Serialized(v)) && ReadsPrologue(step, start, CLEAR_HOME + Serialized(v))
  }

  /** An empty prologue, or one printed from a state that the scanner can reach. */
  ghost predicate Printed(prologue: seq<byte>) {
    prologue == [] || exists v: Visual :: PrintedFrom(v, prologue)
  }

  ghost predicate PrintedFrom(v: Visual, prologue: seq<byte>) {
    WellFormed(v) && (prologue == Serialized(v) || prologue == CLEAR_HOME + Serialized(v))
  }

  lemma {:induction false} ProloguesArePrinted(watermark: nat, spans: seq<Span>, k: nat)
    requires Linked(spans) && k < |Pieces(watermark, spans)|
    ensures Printed(Pieces(watermark, spans)[k].prologue)
    decreases |spans|
  {
    hide Printed, PieceStep, WellFormed, VisualFold;
    if spans == [] {
      assert Printed([]) by { NothingIsPrinted(); }
    } else {
      var s, before := Last(spans), Pieces(watermark, Init(spans));
      PieceStepPrologue(watermark, before, s, k);
      if k < |before| && !s.event.ClearSeq? {
        ProloguesArePrinted(watermark, Init(spans), k);
      }
    }
  }

  lemma NothingIsPrinted()
    ensures Printed([])
  {
  }

  /** A span leaves the older prologues, or adds one printed from its own state. */
  lemma PieceStepPrologue(watermark: nat, ps: seq<Piece>, s: Span, k: nat)
    requires ps != [] && k < |PieceStep(watermark, ps, s)| && WellFormed(s.after)
    ensures var q := PieceStep(watermark, ps, s);
            (k < |ps| && !s.event.ClearSeq? && q[k].prologue == ps[k].prologue) || Printed(q[k].prologue)
  {
    hide Serialized, SpanBytes, WellFormed;
    assert PrintedFrom(s.after, Serialized(s.after)) && PrintedFrom(s.after, CLEAR_HOME + Serialized(s.after));
  }

  /** A parser that reads all printed prologues reads the one of any replay. */
  lemma SelectedIsRead<P(!new)>(step: ParserStep<P>, start: P, input: seq<byte>, watermark: nat, want: nat)
    requires Clean(step) && Settled(step) && ReadsPrologues(step, start)
    ensures ReadsPrologue(step, start, Selected(step, start, input, watermark, want).prologue)
  {
    hide Read, Serialized, Segment, KeptIn, Interpret, Clean, Settled, Linked, WellFormed;
    var spans := Segment(step, start, input).spans;
    var ps := Pieces(watermark, spans);
    SegmentIsLinked(step, start, input);
    ProloguesArePrinted(watermark, spans, ReplayStart(|ps|, want));
    NothingIsRead(step, start);
  }

  lemma NothingIsRead<P>(step: ParserStep<P>, start: P)
    ensures ReadsPrologue(step, start, [])
  {
    assert Interpret([]) == [];
  }

  /** What is selected of the ring: its prologue and its kept spans. */
  function Selected<P>(step: ParserStep<P>, start: P, input: seq<byte>, watermark: nat, want: nat): Piece {
    var ps := Pieces(watermark, Segment(step, start, input).spans);
    var k := ReplayStart(|ps|, want);
    Piece(ps[k].prologue, KeptIn(ps[k..]))
  }

  /**
   * The replayed bytes themselves restore the live state: read by a fresh parser, prologue and all, they
   * lead a fresh terminal to exactly the visual state tracked now, provided the kept spans join up.
   */
  lemma RereadRestores<P(!new)>(step: ParserStep<P>, start: P, input: seq<byte>, watermark: nat, want: nat)
    requires Clean(step) && Settled(step)
    ensures var sel := Selected(step, start, input, watermark, want);
            var replay := ReplayOf(Rendered(Pieces(watermark, Segment(step, start, input).spans)), want);
            ReadsPrologue(step, start, sel.prologue) && JoinsUp(step, start, input, sel.kept) ==>
              Segment(step, start, replay).sink.visual == Segment(step, start, input).sink.visual
  {
    hide Read, SpanBytes, SpanCalls, KeptIn, VisualFold, JoinsUp, InPlace;
    hide Clean, Settled, KeptToken, Segment, Interpret;
    var ps := Pieces(watermark, Segment(step, start, input).spans);
    var k := ReplayStart(|ps|, want);
    var prologue, ts := ps[k].prologue, KeptIn(ps[k..]);
    CappedReplayRestores(step, start, input, watermark, want);
    if ReadsPrologue(step, start, prologue) && JoinsUp(step, start, input, ts) {
      ReplayedAreInPlace(step, start, input, watermark, k);
      JoinedCalls(step, start, input, ts);
      ReadConcat(step, start, prologue, SpanBytes(ts));
      VisualFoldConcat(FRESH, Interpret(prologue), SpanCalls(ts));
      VisualOfRun(step, start, prologue + SpanBytes(ts));
    }
  }

  /** A parser that is back in its initial state whenever a span completes. */
  ghost predicate Grounded<P(!new)>(step: ParserStep<P>, start: P) {
    forall input: seq<byte> :: Segment(step, start, input).pending == [] ==> Segment(step, start, input).parser == start
  }

  /** For such a parser all kept spans join up, in every replay. */
  lemma GroundedJoinsUp<P(!new)>(step: ParserStep<P>, start: P, input: seq<byte>, watermark: nat, want: nat)
    requires Grounded(step, start)
    ensures JoinsUp(step, start, input, Selected(step, start, input, watermark, want).kept)
  {
    hide Read, KeptIn, KeptToken, Segment, OneSpan;
    var ps := Pieces(watermark, Segment(step, start, input).spans);
    var k := ReplayStart(|ps|, want);
    var ts := KeptIn(ps[k..]);
    ReplayedAreInPlace(step, start, input, watermark, k);
    forall t | t in ts
      ensures Entry(step, start, input, t) == start == Exit(step, start, input, t)
    {
      GroundedSpan(step, start, input, t);
    }
  }

  /** So it reads the kept bytes of every replay again as the very callbacks recorded with them. */
  lemma {:induction false} GroundedRereads<P(!new)>(
    step: ParserStep<P>, start: P, input: seq<byte>, watermark: nat, want: nat)
    requires Grounded(step, start)
    ensures var kept := Selected(step, start, input, watermark, want).kept;
            AllCalls(step, start, SpanBytes(kept)) == SpanCalls(kept)
  {
    hide Read, SpanBytes, SpanCalls, KeptIn, JoinsUp, InPlace, Grounded, KeptToken, Segment;
    var ps := Pieces(watermark, Segment(step, start, input).spans);
    var k := ReplayStart(|ps|, want);
    GroundedJoinsUp(step, start, input, watermark, want);
    ReplayedAreInPlace(step, start, input, watermark, k);
    JoinedCalls(step, start, input, KeptIn(ps[k..]));
  }

  lemma GroundedSpan<P(!new)>(step: ParserStep<P>, start: P, input: seq<byte>, s: Span)
    requires Grounded(step, start) && InPlace(step, start, input, s)
    ensures Entry(step, start, input, s) == start == Exit(step, start, input, s)
  {
    hide Read, Segment, OneSpan;
    var before, behind := input[..s.at], input[..s.at + |s.bytes|];
    assert AtBoundary(step, start, before) && AtBoundary(step, start, behind);
    SpansConserveInput(step, start, before);
    SpansConserveInput(step, start, behind);
    assert behind == before + s.bytes;
    ReadConcat(step, start, before, s.bytes);
  }

  // ------------------------------------------- sanitised, read again

  /** Bytes that read as one span are one span, wherever they come with no other one open. */
  lemma {:induction false} OpenRunSegments<P>(step: ParserStep<P>, start: P, x: seq<byte>, y: seq<byte>)
    requires AtBoundary(step, start, x) && Segment(step, start, x).calls == []
    requires StaysOpen(step, Read(step, start, x).parser, y)
    ensures var g, h := Segment(step, start, x), Segment(step, start, x + y);
            && h.spans == g.spans && h.pending == y
            && h.calls == Read(step, Read(step, start, x).parser, y).calls
    decreases |y|
  {
    hide Read, Segment, Completes;
    var p := Read(step, start, x).parser;
    NothingIsInPlace(step, p);
    if y == [] {
      assert x + y == x;
      assert Segment(step, start, x).pending == [];
    } else {
      var z, b := Init(y), Last(y);
      assert y == z + [b] && x + y == x + z + [b] && y[..|y| - 1] == z;
      forall i | 0 <= i < |z|
        ensures !CompletesAt(step, p, z, i)
      {
        assert y[..i] == z[..i];
        assert !CompletesAt(step, p, y, i);
      }
      OpenRunSegments(step, start, x, z);
      SegmentSnoc(step, start, x + z, b);
      ReadSnoc(step, p, z, b);
      ReadConcat(step, start, x, z);
      SpansConserveInput(step, start, x + z);
      assert !CompletesAt(step, p, y, |y| - 1);
    }
  }

  lemma OneSpanSegments<P>(step: ParserStep<P>, start: P, x: seq<byte>, y: seq<byte>)
    requires AtBoundary(step, start, x) && Segment(step, start, x).calls == []
    requires OneSpan(step, Read(step, start, x).parser, y)
    ensures var g, h := Segment(step, start, x), Segment(step, start, x + y);
            && AtBoundary(step, start, x + y) && h.calls == []
            && |h.spans| == |g.spans| + 1 && Init(h.spans) == g.spans
            && Last(h.spans).bytes == y
            && Last(h.spans).calls == Read(step, Read(step, start, x).parser, y).calls
  {
    hide Read, Segment, Completes, StaysOpen;
    var p := Read(step, start, x).parser;
    var z, b := Init(y), Last(y);
    assert y == z + [b] && x + y == x + z + [b] && y[..|y| - 1] == z;
    OpenRunSegments(step, start, x, z);
    SegmentSnoc(step, start, x + z, b);
    ReadSnoc(step, p, z, b);
    ReadConcat(step, start, x, z);
    SpansConserveInput(step, start, x + z);
    assert CompletesAt(step, p, y, |y| - 1);
  }

  /** Spans with the same bytes, callbacks and classification. */
  ghost predicate SameTokens(a: seq<Span>, b: seq<Span>) {
    && |a| == |b|
    && forall i :: 0 <= i < |a| ==> a[i].bytes == b[i].bytes && a[i].calls == b[i].calls && a[i].event == b[i].event
  }

  /**
   * The fixed point on bytes: kept spans that join up, read again by a fresh scanner's parser and sink,
   * are cut into the same spans, and every one is kept with the same classification.
   */
  lemma {:induction false} RereadKeeps<P>(step: ParserStep<P>, start: P, input: seq<byte>, ts: seq<Span>)
    requires JoinsUp(step, start, input, ts)
    requires forall t :: t in ts ==> InPlace(step, start, input, t) && KeptToken(t)
    ensures var h := Segment(step, start, SpanBytes(ts));
            SameTokens(h.spans, ts) && h.pending == [] && h.calls == []
  {
    hide Read, SpanBytes, Entry, OneSpan, Segment, KeptToken;
    if ts == [] {
      NoSpans();
      NothingIsInPlace(step, start);
    } else {
      var front, t := Init(ts), Last(ts);
      assert ts == front + [t] && ts[..|ts| - 1] == front;
      FrontJoinsUp(step, start, input, ts);
      RereadKeeps(step, start, input, front);
      JoinedStates(step, start, input, ts, |ts| - 1);
      SpansSnoc(front, t);
      assert InPlace(step, start, input, t);
      hide InPlace, JoinsUp;
      TokenAppends(step, start, SpanBytes(front), front, t);
    }
  }

  /** Behind kept spans, one more kept span is cut off and classified as it was. */
  lemma TokenAppends<P>(step: ParserStep<P>, start: P, x: seq<byte>, front: seq<Span>, t: Span)
    requires SameTokens(Segment(step, start, x).spans, front) && forall s :: s in front ==> KeptToken(s)
    requires AtBoundary(step, start, x) && Segment(step, start, x).calls == []
    requires OneSpan(step, Read(step, start, x).parser, t.bytes) && KeptToken(t)
    requires Read(step, Read(step, start, x).parser, t.bytes).calls == t.calls
    ensures var h := Segment(step, start, x + t.bytes);
            SameTokens(h.spans, front + [t]) && h.pending == [] && h.calls == []
  {
    hide Read, OneSpan, Segment, KeptToken, Classify, PendingBehind;
    OneSpanSegments(step, start, x, t.bytes);
    LastIsClassified(step, start, x + t.bytes);
    PendingBehindTokens(Segment(step, start, x).spans, front);
    KeptContext(PendingBehind(Segment(step, start, x).spans), t);
  }

  lemma LastIsClassified<P>(step: ParserStep<P>, start: P, input: seq<byte>)
    requires Segment(step, start, input).spans != []
    ensures var spans := Segment(step, start, input).spans;
            Last(spans).event == Classify(PendingBehind(Init(spans)), Last(spans).calls)
  {
    SegmentIsClassified(step, start, input);
  }

  lemma PendingBehindTokens(spans: seq<Span>, ts: seq<Span>)
    requires SameTokens(spans, ts) && forall t :: t in ts ==> KeptToken(t)
    ensures PendingBehind(spans) == None || PendingBehind(spans) == Some(KeepSeq)
  {
    if ts != [] {
      assert Last(ts) in ts && Last(spans).calls == Last(ts).calls;
      KeptLeavesKept(Last(ts));
    }
  }

  /** So nothing of a replay's kept bytes is dropped, or taken for a clear, when they are read again. */
  lemma ReplayRereadsKept<P>(step: ParserStep<P>, start: P, input: seq<byte>, watermark: nat, want: nat)
    ensures var kept := Selected(step, start, input, watermark, want).kept;
            JoinsUp(step, start, input, kept) ==>
              SameTokens(Segment(step, start, SpanBytes(kept)).spans, kept)
              && forall s :: s in Segment(step, start, SpanBytes(kept)).spans ==> s.event.Keeps()
  {
    hide Read, SpanBytes, KeptIn, JoinsUp, InPlace, KeptToken, Segment;
    var ps := Pieces(watermark, Segment(step, start, input).spans);
    var k := ReplayStart(|ps|, want);
    var ts := KeptIn(ps[k..]);
    if JoinsUp(step, start, input, ts) {
      ReplayedAreInPlace(step, start, input, watermark, k);
      RereadKeeps(step, start, input, ts);
      forall i | 0 <= i < |ts|
        ensures ts[i].event.Keeps()
      {
        assert ts[i] in ts;
        TokenIsKept(ts[i]);
      }
    }
  }
}
