/** More guarantees over whole runs: what survives stays sanitised, chunk sizes, and shell status. */
module SanitiserTheorems {
  import opened Bytes
  import opened Callbacks
  import opened Prologue
  import opened Ring
  import opened Sink
  import opened Scanner
  import opened ReplayTheorems

  // ------------------------------------------------- sanitiser fixed point

  /** The classification that a span's callbacks get, given what the last OSC before them left pending. */
  function Classify(stPending: Option<SegEvent>, calls: seq<Callback>): SegEvent {
    if calls == [] then Nothing
    else EventOf(if |calls| == 1 then stPending else PendingAfter(calls[|calls| - 2]), Last(calls))
  }

  function PendingBehind(spans: seq<Span>): Option<SegEvent> {
    if spans == [] || Last(spans).calls == [] then None else PendingAfter(Last(Last(spans).calls))
  }

  ghost predicate Classified(spans: seq<Span>) {
    spans == [] ||
    (&& Classified(Init(spans))
     && Last(spans).calls != []
     && Last(spans).event == Classify(PendingBehind(Init(spans)), Last(spans).calls))
  }

  lemma ClassifiedSnoc(spans: seq<Span>, s: Span)
    requires Classified(spans) && s.calls != [] && s.event == Classify(PendingBehind(spans), s.calls)
    ensures Classified(spans + [s])
    ensures PendingBehind(spans + [s]) == PendingAfter(Last(s.calls))
  {
    assert Init(spans + [s]) == spans;
  }

  /** What the sink makes of one byte's callbacks is the classification of all callbacks of the open span. */
  lemma ByteClassifies(s: SinkState, stPending: Option<SegEvent>, calls: seq<Callback>, cbs: seq<Callback>)
    requires cbs != [] && s.stPending == if calls == [] then stPending else PendingAfter(Last(calls))
    ensures SinkFold(s, cbs).event == Classify(stPending, calls + cbs)
    ensures SinkFold(s, cbs).stPending == PendingAfter(Last(calls + cbs))
  {
    hide EventOf, PendingAfter, SinkFold;
    SinkFoldParts(s, cbs);
    SinkFoldParts(s, Init(cbs));
    assert Last(calls + cbs) == Last(cbs);
    if |cbs| > 1 {
      assert (calls + cbs)[|calls + cbs| - 2] == Last(Init(cbs));
    } else if calls != [] {
      assert (calls + cbs)[|calls + cbs| - 2] == Last(calls);
    }
  }

  lemma {:induction false} SegmentIsClassified<P>(step: ParserStep<P>, start: P, input: seq<byte>)
    ensures var g := Segment(step, start, input);
            && Classified(g.spans)
            && g.sink.event == Nothing
            && g.sink.stPending == if g.calls == [] then PendingBehind(g.spans) else PendingAfter(Last(g.calls))
  {
    hide PendingAfter, SinkFold, Classify, Classified, PendingBehind;
    if input == [] {
      NothingClassified();
    } else {
      SegmentIsClassified(step, start, Init(input));
      var g := Segment(step, start, Init(input));
      var cbs := step(g.parser, Last(input)).1;
      var sink := SinkFold(g.sink, cbs);
      if cbs == [] {
        assert g.calls + cbs == g.calls;
        SinkFoldNothing(g.sink);
      } else {
        ByteClassifies(g.sink, PendingBehind(g.spans), g.calls, cbs);
        if !sink.event.Nothing? {
          ClassifiedSnoc(g.spans, Span(g.at, g.pending + [Last(input)], g.calls + cbs, sink.event, sink.visual));
        }
      }
    }
  }

  lemma NothingClassified()
    ensures Classified([]) && PendingBehind([]) == None
  {
  }

  lemma SinkFoldNothing(s: SinkState)
    ensures SinkFold(s, []) == s
  {
  }

  /** A kept span, classified in any context that the sink can be in. */
  ghost predicate KeptToken(s: Span) {
    && s.calls != [] && s.event.Keeps()
    && exists p: Option<SegEvent> :: InContext(p, s)
  }

  predicate InContext(p: Option<SegEvent>, s: Span) {
    (p == None || p == Some(KeepSeq) || p == Some(DropSeq)) && s.event == Classify(p, s.calls)
  }

  /** In a context that a kept span can leave behind, a kept span is classified as before. */
  lemma KeptContext(p: Option<SegEvent>, s: Span)
    requires KeptToken(s) && (p == None || p == Some(KeepSeq))
    ensures Classify(p, s.calls) == s.event
  {
    var q: Option<SegEvent> :| InContext(q, s);
  }

  lemma KeptLeavesKept(s: Span)
    requires KeptToken(s)
    ensures PendingAfter(Last(s.calls)) == None || PendingAfter(Last(s.calls)) == Some(KeepSeq)
  {
  }

  /** What a fresh sink has pending behind kept spans only. */
  lemma PendingBehindKept(ts: seq<Span>, i: nat)
    requires i <= |ts| && forall t :: t in ts ==> KeptToken(t)
    ensures var p := SinkFold(FRESH_SINK, SpanCalls(ts[..i])).stPending; p == None || p == Some(KeepSeq)
  {
    hide KeptToken, PendingAfter, SinkFold;
    SinkFoldParts(FRESH_SINK, SpanCalls(ts[..i]));
    if i > 0 {
      var t := ts[i - 1];
      assert t in ts && ts[..i] == ts[..i - 1] + [t];
      SpansSnoc(ts[..i - 1], t);
      TokenHasCalls(t);
      hide SpanCalls;
      assert Last(SpanCalls(ts[..i])) == Last(t.calls);
      KeptLeavesKept(t);
    }
  }

  /** Fed with any sequence of kept spans only, a fresh sink keeps every one of them, with the same classification. */
  lemma KeptStaysKept(ts: seq<Span>, i: nat)
    requires i < |ts| && forall t :: t in ts ==> KeptToken(t)
    ensures SinkFold(FRESH_SINK, SpanCalls(ts[..i]) + ts[i].calls).event == ts[i].event
  {
    hide KeptToken, Classify, PendingAfter, SinkFold, SpanCalls;
    var before, t := SpanCalls(ts[..i]), ts[i];
    assert t in ts;
    var s := SinkFold(FRESH_SINK, before);
    PendingBehindKept(ts, i);
    TokenHasCalls(t);
    SinkFoldConcat(FRESH_SINK, before, t.calls);
    ByteClassifies(s, s.stPending, [], t.calls);
    assert [] + t.calls == t.calls;
    KeptContext(s.stPending, t);
  }

  lemma TokenHasCalls(s: Span)
    requires KeptToken(s)
    ensures s.calls != []
  {
  }

  lemma {:induction false} KeptSpansAreTokens(spans: seq<Span>)
    requires Classified(spans)
    ensures forall s :: s in Since(spans) ==> KeptToken(s)
  {
    if spans != [] {
      KeptSpansAreTokens(Init(spans));
      var p := PendingBehind(Init(spans));
      if Last(spans).event.Keeps() {
        assert InContext(p, Last(spans));
      }
    }
  }

  lemma KeptInSplits(ps: seq<Piece>, k: nat)
    requires k <= |ps|
    ensures KeptIn(ps) == KeptIn(ps[..k]) + KeptIn(ps[k..])
  {
    assert ps == ps[..k] + ps[k..];
    GatherConcat((p: Piece) => p.kept, ps[..k], ps[k..]);
  }

  /**
   * Nothing that a replay holds would be dropped, or taken for a clear, when read again: a fresh sink fed
   * with the replayed spans keeps every one, string terminators included.
   */
  lemma ReplayIsFixedPoint<P>(step: ParserStep<P>, start: P, input: seq<byte>, watermark: nat, want: nat, i: nat)
    requires var ps := Pieces(watermark, Segment(step, start, input).spans);
             i < |KeptIn(ps[ReplayStart(|ps|, want)..])|
    ensures var ps := Pieces(watermark, Segment(step, start, input).spans);
            var ts := KeptIn(ps[ReplayStart(|ps|, want)..]);
            && SinkFold(FRESH_SINK, SpanCalls(ts[..i]) + ts[i].calls).event == ts[i].event
            && ts[i].event.Keeps()
  {
    hide KeptToken, SinkFold, SpanCalls, Classified;
    var spans := Segment(step, start, input).spans;
    var ps := Pieces(watermark, spans);
    var k := ReplayStart(|ps|, want);
    var ts := KeptIn(ps[k..]);
    SegmentIsClassified(step, start, input);
    KeptSpansAreTokens(spans);
    PiecesHoldSince(watermark, spans);
    KeptInSplits(ps, k);
    assert forall t :: t in ts ==> t in KeptIn(ps);
    KeptStaysKept(ts, i);
    TokenIsKept(ts[i]);
  }

  lemma TokenIsKept(s: Span)
    requires KeptToken(s)
    ensures s.event.Keeps()
  {
  }

  /** A string terminator directly behind its control string shares that string's fate. */
  lemma TerminatorFollowsString(s: SinkState, cbs: seq<Callback>, fields: seq<seq<byte>>)
    ensures SinkFold(s, cbs + [Osc(fields), Esc(BACKSLASH)]).event == SinkFold(s, cbs + [Osc(fields)]).event
            == OscEvent(fields)
  {
    var c1 := cbs + [Osc(fields)];
    var c2 := cbs + [Osc(fields), Esc(BACKSLASH)];
    assert Init(c2) == c1 && Init(c1) == cbs;
  }

  // ------------------------------------------------------ chunk arithmetic

  ghost predicate Sized(watermark: nat, ps: seq<Piece>) {
    && ps != []
    && |SpanBytes(Last(ps).kept)| < watermark
    && forall i :: 0 <= i < |ps| - 1 ==> Sealed(watermark, ps[i])
  }

  /** A sealed chunk reached the watermark with its last span, and not before. */
  ghost predicate Sealed(watermark: nat, p: Piece) {
    && p.kept != []
    && watermark <= |SpanBytes(p.kept)| < watermark + |Last(p.kept).bytes|
  }

  lemma {:induction false} ChunkSizes(watermark: nat, spans: seq<Span>)
    requires watermark > 0
    ensures Sized(watermark, Pieces(watermark, spans))
  {
    hide Serialized;
    if spans != [] {
      ChunkSizes(watermark, Init(spans));
      var ps := Pieces(watermark, Init(spans));
      var s := Last(spans);
      SpansSnoc(Last(ps).kept, s);
    }
  }

  lemma OneMore(n: nat, w: nat)
    ensures (n + 1) * w == n * w + w
  {
  }

  lemma {:induction false} SealedChunksFill(watermark: nat, ps: seq<Piece>)
    requires forall i :: 0 <= i < |ps| ==> Sealed(watermark, ps[i])
    ensures |ps| * watermark <= |SpanBytes(KeptIn(ps))|
  {
    if ps != [] {
      SealedChunksFill(watermark, Init(ps));
      KeptInSnoc(Init(ps), Last(ps));
      assert ps == Init(ps) + [Last(ps)];
      hide KeptIn, SpanBytes;
      SpansConcat(KeptIn(Init(ps)), Last(ps).kept);
      assert Sealed(watermark, ps[|ps| - 1]);
      OneMore(|Init(ps)|, watermark);
    }
  }

  /** The number of chunks is bounded by the bytes retained since the last clear. */
  lemma {:induction false} ChunkCount(watermark: nat, spans: seq<Span>)
    requires watermark > 0
    ensures (|Pieces(watermark, spans)| - 1) * watermark <= |SpanBytes(Since(spans))|
  {
    var ps := Pieces(watermark, spans);
    ChunkSizes(watermark, spans);
    SealedChunksFill(watermark, Init(ps));
    PiecesHoldSince(watermark, spans);
    SpansConcat(KeptIn(Init(ps)), Last(ps).kept);
  }

  /** Asking for fewer chunks trims whole spans from the front, and nothing else. */
  lemma SmallerReplayIsSuffix(ps: seq<Piece>, fewer: nat, more: nat)
    requires ps != [] && fewer <= more
    ensures var a, b := ReplayStart(|ps|, fewer), ReplayStart(|ps|, more);
            && b <= a
            && KeptIn(ps[b..]) == KeptIn(ps[b..a]) + KeptIn(ps[a..])
  {
    var a, b := ReplayStart(|ps|, fewer), ReplayStart(|ps|, more);
    KeptInSplits(ps[b..], a - b);
    assert ps[b..][..a - b] == ps[b..a] && ps[b..][a - b..] == ps[a..];
  }

  // ---------------------------------------------------------- shell status

  predicate IsPromptMarker(cb: Callback) {
    cb.Osc? && FieldAt(cb.fields, 0) == Some(CODE_PROMPT)
  }

  /** An OSC 133 marker of the given subtype. */
  predicate IsMarker(cb: Callback, subtype: char)
    requires subtype < 128 as char
  {
    IsPromptMarker(cb) && |cb.fields| > 1 && cb.fields[1] != [] && cb.fields[1][0] == subtype as int
  }

  /** A command start with no command end behind it. */
  ghost predicate CommandOpen(calls: seq<Callback>) {
    exists i :: 0 <= i < |calls| && OpensAt(calls, i)
  }

  ghost predicate OpensAt(calls: seq<Callback>, i: nat)
    requires i < |calls|
  {
    IsMarker(calls[i], 'C') && forall j :: i < j < |calls| ==> !IsMarker(calls[j], 'D')
  }

  ghost predicate AnyMarker(calls: seq<Callback>) {
    exists cb :: cb in calls && IsPromptMarker(cb)
  }

  lemma OpenStep(calls: seq<Callback>)
    requires calls != []
    ensures CommandOpen(calls) <==>
            IsMarker(Last(calls), 'C') || (!IsMarker(Last(calls), 'D') && CommandOpen(Init(calls)))
  {
    hide IsMarker;
    var n := |calls| - 1;
    if CommandOpen(calls) {
      var i :| 0 <= i < |calls| && OpensAt(calls, i);
      if i < n {
        assert OpensAt(Init(calls), i);
      }
    }
    if IsMarker(Last(calls), 'C') {
      assert OpensAt(calls, n);
    } else if !IsMarker(Last(calls), 'D') && CommandOpen(Init(calls)) {
      var i :| 0 <= i < n && OpensAt(Init(calls), i);
      assert OpensAt(calls, i);
    }
  }

  /** The effect of one callback on running and on the latch. */
  lemma StatusStep(status: Status, cb: Callback)
    ensures StatusAfter(status, cb).running == (IsMarker(cb, 'C') || (!IsMarker(cb, 'D') && status.running))
    ensures StatusAfter(status, cb).marked == (IsPromptMarker(cb) || status.marked)
  {
  }

  lemma {:induction false} StatusOfCalls(s: SinkState, calls: seq<Callback>)
    requires s.status == IDLE
    ensures SinkFold(s, calls).status.marked <==> AnyMarker(calls)
    ensures SinkFold(s, calls).status.running <==> CommandOpen(calls)
  {
    if calls != [] {
      hide CommandOpen, StatusAfter, IsMarker, IsPromptMarker;
      StatusOfCalls(s, Init(calls));
      OpenStep(calls);
      StatusStep(SinkFold(s, Init(calls)).status, Last(calls));
      assert calls == Init(calls) + [Last(calls)];
    }
  }

  /** The sink's status is what all callbacks so far make of it, however they fell into spans. */
  lemma {:induction false} StatusOfRun<P>(step: ParserStep<P>, start: P, input: seq<byte>)
    ensures Segment(step, start, input).sink.status == SinkFold(FRESH_SINK, AllCalls(step, start, input)).status
  {
    hide StatusAfter;
    if input != [] {
      StatusOfRun(step, start, Init(input));
      SpansConserveInput(step, start, Init(input));
      var g := Segment(step, start, Init(input));
      var calls, cbs := AllCalls(step, start, Init(input)), step(g.parser, Last(input)).1;
      SameStatus(g.sink, SinkFold(FRESH_SINK, calls), cbs);
      SinkFoldConcat(FRESH_SINK, calls, cbs);
    }
  }

  lemma {:induction false} SinkFoldConcat(s: SinkState, a: seq<Callback>, b: seq<Callback>)
    ensures SinkFold(s, a + b) == SinkFold(SinkFold(s, a), b)
  {
    if b == [] {
      assert a + b == a;
    } else {
      SinkFoldConcat(s, a, Init(b));
      assert Init(a + b) == a + Init(b);
    }
  }

  lemma {:induction false} SameStatus(s: SinkState, t: SinkState, cbs: seq<Callback>)
    requires s.status == t.status
    ensures SinkFold(s, cbs).status == SinkFold(t, cbs).status
  {
    if cbs != [] {
      SameStatus(s, t, Init(cbs));
    }
  }

  /** Running exactly while the last C marker has no D marker behind it, and latched from the first marker on. */
  lemma StatusFollowsMarkers<P>(step: ParserStep<P>, start: P, input: seq<byte>)
    ensures var status := Segment(step, start, input).sink.status;
            var calls := AllCalls(step, start, input);
            && (status.running <==> CommandOpen(calls))
            && (status.marked <==> AnyMarker(calls))
  {
    StatusOfRun(step, start, input);
    StatusOfCalls(FRESH_SINK, AllCalls(step, start, input));
  }

  /** Prompt marking, once seen, stays seen. */
  lemma {:induction false} MarkingLatches<P>(step: ParserStep<P>, start: P, a: seq<byte>, b: seq<byte>)
    requires Segment(step, start, a).sink.status.marked
    ensures Segment(step, start, a + b).sink.status.marked
  {
    hide SinkFold;
    if b == [] {
      assert a + b == a;
    } else {
      MarkingLatches(step, start, a, Init(b));
      assert Init(a + b) == a + Init(b);
      var g := Segment(step, start, a + Init(b));
      FoldLatches(g.sink, step(g.parser, Last(b)).1);
    }
  }

  lemma {:induction false} FoldLatches(s: SinkState, cbs: seq<Callback>)
    requires s.status.marked
    ensures SinkFold(s, cbs).status.marked
  {
    if cbs != [] {
      FoldLatches(s, Init(cbs));
    }
  }
}
