/** The scanner as the actor's engine: what its latch and its replay mean for attached clients. */
module EngineTheorems {
  import opened Bytes
  import opened Callbacks
  import opened Prologue
  import opened Sink
  import opened Scanner
  import opened ReplayTheorems
  import opened SanitiserTheorems
  import opened RereadTheorems
  import opened Actor
  import opened ActorLoop
  import opened DeliveryTheorems
  import T = Translate
  import R = Ring

  lemma StatusLatches<P(!new)>(step: ParserStep<P>, start: P, a: seq<byte>, b: seq<byte>)
    requires StatusOf(step, start, a).marked
    ensures StatusOf(step, start, a + b).marked
  {
    hide Segment, T.TranslateFrom;
    T.TranslateConcat(0, a, b);
    var p := T.Translated(a);
    MarkingLatches(step, start, p.out, T.TranslateFrom(p.owed, b).out);
  }

  /** The scanner never forgets a prompt marker, so with it the actor's polls stop mattering for good. */
  lemma ScannerLatches<P(!new)>(step: ParserStep<P>, start: P, watermark: nat, c: Config)
    requires c.engine == EngineOf(step, start, watermark)
    ensures Latching(c)
  {
    hide StatusOf, ReplayedBytes;
    forall a: seq<byte>, b: seq<byte> | c.engine.status(a).marked
      ensures c.engine.status(a + b).marked
    {
      StatusLatches(step, start, a, b);
    }
  }

  /**
   * A handshake over what a scanner had parsed by then: its data is a state prologue and the bytes of kept
   * spans; these lead a fresh terminal to exactly the visual state tracked at the attach; and so do the
   * data's bytes, read again by a fresh parser, if the kept spans join up.
   */
  ghost predicate HandshakeIsWorth<P(!new)>(
    step: ParserStep<P>, start: P, watermark: nat, parsed: seq<byte>, a: AttachRecord)
  {
    var g := Segment(step, start, parsed);
    var ps := Pieces(watermark, g.spans);
    var k := R.ReplayStart(|ps|, Depth(a.want));
    var data := DataOf(a.handshake);
    && data == ps[k].prologue + SpanBytes(KeptIn(ps[k..]))
    && RestoredFrom(ps, k) == g.sink.visual
    && (ReadsPrologue(step, start, ps[k].prologue) && JoinsUp(step, start, parsed, KeptIn(ps[k..])) ==>
          Segment(step, start, data).sink.visual == g.sink.visual)
  }

  /** That is what every client's handshake is worth, in every run of an actor over a scanner. */
  lemma {:induction false} HandshakeRestores<P(!new)>(
    step: ParserStep<P>, start: P, watermark: nat, c: Config, es: seq<Event>, n: nat)
    requires Clean(step) && Settled(step)
    requires c.engine == EngineOf(step, start, watermark)
    ensures var s := Run(c, es);
            n < |s.attaches| ==>
              var a := s.attaches[n];
              a.at <= |s.drained| && HandshakeIsWorth(step, start, watermark, T.Translated(s.drained[..a.at]).out, a)
  {
    hide Run, Delivered, HandshakeIsWorth;
    var s := Run(c, es);
    DeliveryHolds(c, es);
    if n < |s.attaches| {
      DeliveredIsShaped(c, s, n);
      ShapedIsWorth(step, start, watermark, c, s, s.attaches[n]);
    }
  }

  lemma DeliveredIsShaped(c: Config, s: State, k: nat)
    requires k < |s.queues| == |s.attaches| && Delivered(c, s, k)
    ensures s.attaches[k].at <= |s.drained| && Shaped(c, s, s.attaches[k])
  {
    hide GapFree, ExitsLast, Distinct, Complete, LastStatusIs;
  }

  lemma ShapedIsWorth<P(!new)>(
    step: ParserStep<P>, start: P, watermark: nat, c: Config, s: State, a: AttachRecord)
    requires Clean(step) && Settled(step)
    requires c.engine == EngineOf(step, start, watermark) && a.at <= |s.drained| && Shaped(c, s, a)
    ensures HandshakeIsWorth(step, start, watermark, T.Translated(s.drained[..a.at]).out, a)
  {
    var raw := s.drained[..a.at];
    HandshakeCarriesReplay(c, s, a);
    CappedReplayRestores(step, start, T.Translated(raw).out, watermark, Depth(a.want));
    RereadRestores(step, start, T.Translated(raw).out, watermark, Depth(a.want));
    hide Segment, Pieces, RestoredFrom, SpanBytes, KeptIn, DataOf, Shaped, Clean, Settled, ReadsPrologue, JoinsUp;
    assert c.engine.replay(raw, Depth(a.want)) == ReplayedBytes(step, start, watermark, raw, Depth(a.want));
  }

  // ------------------------------------------------------------- the seam

  /**
   * From equal states a terminal stays equal: if a fresh parser, behind some bytes, has the parser and visual
   * state that the scanner has behind its own, then whatever both read next leaves them equal.
   */
  lemma EqualStaysEqual<P>(step: ParserStep<P>, start: P, ours: seq<byte>, theirs: seq<byte>, more: seq<byte>)
    requires Segment(step, start, theirs).parser == Segment(step, start, ours).parser
    requires Segment(step, start, theirs).sink.visual == Segment(step, start, ours).sink.visual
    ensures Segment(step, start, theirs + more).parser == Segment(step, start, ours + more).parser
    ensures Segment(step, start, theirs + more).sink.visual == Segment(step, start, ours + more).sink.visual
  {
    hide Read, Segment, VisualFold;
    SpansConserveInput(step, start, ours);
    SpansConserveInput(step, start, theirs);
    SpansConserveInput(step, start, ours + more);
    SpansConserveInput(step, start, theirs + more);
    ReadConcat(step, start, ours, more);
    ReadConcat(step, start, theirs, more);
    VisualOfRun(step, start, ours);
    VisualOfRun(step, start, theirs);
    VisualOfRun(step, start, ours + more);
    VisualOfRun(step, start, theirs + more);
    var calls := Read(step, Read(step, start, ours).parser, more).calls;
    VisualFoldConcat(FRESH, AllCalls(step, start, ours), calls);
    VisualFoldConcat(FRESH, AllCalls(step, start, theirs), calls);
  }

  /** The parser state that a fresh parser is in behind a selected replay. */
  function SeamState<P>(step: ParserStep<P>, start: P, parsed: seq<byte>, kept: seq<Span>): P {
    if kept == [] then start else Exit(step, start, parsed, Last(kept))
  }

  /** The seam is tight: the kept spans join up, and end in the parser state that the scanner is in. */
  ghost predicate TightSeam<P>(step: ParserStep<P>, start: P, parsed: seq<byte>, kept: seq<Span>) {
    && JoinsUp(step, start, parsed, kept)
    && SeamState(step, start, parsed, kept) == Segment(step, start, parsed).parser
  }

  /** Kept spans that join up leave a fresh parser in the seam's state. */
  lemma JoinedParser<P>(step: ParserStep<P>, start: P, parsed: seq<byte>, kept: seq<Span>)
    requires JoinsUp(step, start, parsed, kept)
    ensures Read(step, start, SpanBytes(kept)).parser == SeamState(step, start, parsed, kept)
  {
    hide Read, SpanBytes, Entry;
    NoSpans();
    NothingIsInPlace(step, start);
    if kept != [] {
      JoinedStates(step, start, parsed, kept, |kept| - 1);
      ReadKept(step, start, kept, |kept|);
      assert kept[..|kept|] == kept;
    }
  }

  /**
   * Replay and live output together: over a tight seam, a fresh parser that reads a replay and then whatever
   * the scanner parses next has the scanner's tracked state at every later point.
   */
  lemma {:induction false} SeamHolds<P(!new)>(
    step: ParserStep<P>, start: P, parsed: seq<byte>, watermark: nat, want: nat, more: seq<byte>)
    requires Clean(step) && Settled(step)
    ensures var sel := Selected(step, start, parsed, watermark, want);
            ReadsPrologue(step, start, sel.prologue) && TightSeam(step, start, parsed, sel.kept) ==>
              Segment(step, start, sel.prologue + SpanBytes(sel.kept) + more).sink.visual
              == Segment(step, start, parsed + more).sink.visual
  {
    hide Read, SpanBytes, KeptIn, JoinsUp, Clean, Settled, Segment, Interpret;
    var ps := Pieces(watermark, Segment(step, start, parsed).spans);
    var k := R.ReplayStart(|ps|, want);
    var prologue, kept := ps[k].prologue, KeptIn(ps[k..]);
    if ReadsPrologue(step, start, prologue) && TightSeam(step, start, parsed, kept) {
      RereadRestores(step, start, parsed, watermark, want);
      ReplayIsKeptSpans(ps, want);
      var replay := prologue + SpanBytes(kept);
      ReadConcat(step, start, prologue, SpanBytes(kept));
      JoinedParser(step, start, parsed, kept);
      SpansConserveInput(step, start, replay);
      EqualStaysEqual(step, start, parsed, replay, more);
    }
  }

  /** Whatever comes next, read from `p` or from `q`, makes the same state of `v`. */
  ghost predicate SameTracking<P>(step: ParserStep<P>, v: Visual, p: P, q: P) {
    forall more: seq<byte> :: VisualFold(v, Read(step, p, more).calls) == VisualFold(v, Read(step, q, more).calls)
  }

  lemma VisualContinues<P>(step: ParserStep<P>, start: P, x: seq<byte>, more: seq<byte>)
    ensures var g := Segment(step, start, x);
            Segment(step, start, x + more).sink.visual == VisualFold(g.sink.visual, Read(step, g.parser, more).calls)
  {
    hide Read, Segment, VisualFold;
    SpansConserveInput(step, start, x);
    ReadConcat(step, start, x, more);
    VisualOfRun(step, start, x);
    VisualOfRun(step, start, x + more);
    VisualFoldConcat(FRESH, AllCalls(step, start, x), Read(step, Read(step, start, x).parser, more).calls);
  }

  /**
   * The exact condition for that: if the kept spans join up, a fresh parser behind a replay has the scanner's
   * tracked state at every later point of every continuation exactly if the two parser states, the seam's and
   * the scanner's, make the same of every continuation.
   */
  lemma {:induction false} SeamHoldsIff<P(!new)>(
    step: ParserStep<P>, start: P, parsed: seq<byte>, watermark: nat, want: nat)
    requires Clean(step) && Settled(step)
    ensures var sel := Selected(step, start, parsed, watermark, want);
            var g := Segment(step, start, parsed);
            ReadsPrologue(step, start, sel.prologue) && JoinsUp(step, start, parsed, sel.kept) ==>
              ((forall more: seq<byte> ::
                  Segment(step, start, sel.prologue + SpanBytes(sel.kept) + more).sink.visual
                  == Segment(step, start, parsed + more).sink.visual)
               <==> SameTracking(step, g.sink.visual, SeamState(step, start, parsed, sel.kept), g.parser))
  {
    hide Read, SpanBytes, KeptIn, JoinsUp, Clean, Settled, Segment, Interpret, VisualFold;
    var ps := Pieces(watermark, Segment(step, start, parsed).spans);
    var k := R.ReplayStart(|ps|, want);
    var prologue, kept := ps[k].prologue, KeptIn(ps[k..]);
    if ReadsPrologue(step, start, prologue) && JoinsUp(step, start, parsed, kept) {
      RereadRestores(step, start, parsed, watermark, want);
      ReplayIsKeptSpans(ps, want);
      var replay := prologue + SpanBytes(kept);
      ReadConcat(step, start, prologue, SpanBytes(kept));
      JoinedParser(step, start, parsed, kept);
      SpansConserveInput(step, start, replay);
      forall more: seq<byte>
        ensures Segment(step, start, replay + more).sink.visual
                == VisualFold(Segment(step, start, parsed).sink.visual,
                              Read(step, SeamState(step, start, parsed, kept), more).calls)
        ensures Segment(step, start, parsed + more).sink.visual
                == VisualFold(Segment(step, start, parsed).sink.visual,
                              Read(step, Segment(step, start, parsed).parser, more).calls)
      {
        VisualContinues(step, start, replay, more);
        VisualContinues(step, start, parsed, more);
      }
    }
  }

  /** The last completed span ends where the open one begins. */
  lemma {:induction false} LastSpanEnds<P>(step: ParserStep<P>, start: P, parsed: seq<byte>)
    ensures var g := Segment(step, start, parsed);
            g.spans != [] ==> Last(g.spans).at + |Last(g.spans).bytes| == g.at
  {
    if parsed != [] {
      hide Segment, Completes;
      LastSpanEnds(step, start, Init(parsed));
      SegmentSnoc(step, start, Init(parsed), Last(parsed));
      assert parsed == Init(parsed) + [Last(parsed)];
    } else {
      NothingIsInPlace(step, start);
    }
  }

  /**
   * What a tight seam comes to, if the last span before it was kept and replayed: the pending bytes lead the
   * parser back to where they found it. No pending bytes do.
   */
  lemma {:induction false} TightIffPendingReturns<P>(
    step: ParserStep<P>, start: P, parsed: seq<byte>, kept: seq<Span>)
    ensures var g := Segment(step, start, parsed);
            kept != [] && g.spans != [] && Last(kept) == Last(g.spans) && JoinsUp(step, start, parsed, kept) ==>
              var p := SeamState(step, start, parsed, kept);
              && (TightSeam(step, start, parsed, kept) <==> Read(step, p, g.pending).parser == p)
              && (g.pending == [] ==> TightSeam(step, start, parsed, kept))
  {
    hide Read, Segment, JoinsUp, OneSpan, AtBoundary, StaysOpen;
    var g := Segment(step, start, parsed);
    SpansAreInPlace(step, start, parsed);
    SpansConserveInput(step, start, parsed);
    LastSpanEnds(step, start, parsed);
    if kept != [] && g.spans != [] && Last(kept) == Last(g.spans) {
      var s := Last(g.spans);
      assert s in g.spans;
      assert parsed == parsed[..g.at] + g.pending && parsed[..g.at] == parsed[..s.at] + s.bytes;
      ReadConcat(step, start, parsed[..s.at], s.bytes);
      ReadConcat(step, start, parsed[..g.at], g.pending);
      NothingIsInPlace(step, SeamState(step, start, parsed, kept));
    }
  }

  /**
   * What a client sees is what the scanner tracks, in every run: a terminal fed with all the data that a
   * client's queue was sent, the handshake's and then the live data translated as the scanner translates it,
   * has the visual state that the scanner had behind the bytes drained by then. It takes a handshake that was
   * queued whole, over a tight seam.
   */
  lemma {:induction false} ClientTracksScanner<P(!new)>(
    step: ParserStep<P>, start: P, watermark: nat, c: Config, es: seq<Event>, k: nat)
    requires Clean(step) && Settled(step)
    requires c.engine == EngineOf(step, start, watermark)
    ensures var s := Run(c, es);
            k < |s.queues| == |s.attaches| && Fits(s.queues[k], s.attaches[k])
            && s.attaches[k].handshake <= s.queues[k].sent ==>
              var a := s.attaches[k];
              a.at <= |s.drained| &&
              var live := DataOf(LiveFrames(s.queues[k].sent, a.handshake));
              var before := T.Translated(s.drained[..a.at]);
              var sel := Selected(step, start, before.out, watermark, Depth(a.want));
              ReadsPrologue(step, start, sel.prologue) && TightSeam(step, start, before.out, sel.kept) ==>
                a.at + |live| <= |s.drained| &&
                Segment(step, start, DataOf(a.handshake) + T.TranslateFrom(before.owed, live).out).sink.visual
                == Segment(step, start, T.Translated(s.drained[..a.at + |live|]).out).sink.visual
  {
    hide Run, Delivered, Segment, DataOf, TightSeam, ReadsPrologue, Selected;
    hide T.TranslateFrom, Clean, Settled, SpanBytes;
    var s := Run(c, es);
    DeliveryHolds(c, es);
    LiveDataIsDrained(c, es, k);
    if k < |s.queues| == |s.attaches| && Fits(s.queues[k], s.attaches[k])
       && s.attaches[k].handshake <= s.queues[k].sent {
      var a := s.attaches[k];
      DeliveredIsShaped(c, s, k);
      var live := DataOf(LiveFrames(s.queues[k].sent, a.handshake));
      var before := T.Translated(s.drained[..a.at]);
      HandshakeIsSelected(step, start, watermark, c, s, a);
      SeamHolds(step, start, before.out, watermark, Depth(a.want), T.TranslateFrom(before.owed, live).out);
      T.TranslateConcat(0, s.drained[..a.at], live);
      assert s.drained[..a.at + |live|] == s.drained[..a.at] + live;
    }
  }

  lemma HandshakeIsSelected<P(!new)>(
    step: ParserStep<P>, start: P, watermark: nat, c: Config, s: State, a: AttachRecord)
    requires c.engine == EngineOf(step, start, watermark) && a.at <= |s.drained| && Shaped(c, s, a)
    ensures var sel := Selected(step, start, T.Translated(s.drained[..a.at]).out, watermark, Depth(a.want));
            DataOf(a.handshake) == sel.prologue + SpanBytes(sel.kept)
  {
    var raw := s.drained[..a.at];
    HandshakeCarriesReplay(c, s, a);
    hide Segment, Pieces, SpanBytes, KeptIn, DataOf, Shaped;
    assert c.engine.replay(raw, Depth(a.want)) == ReplayedBytes(step, start, watermark, raw, Depth(a.want));
    ReplayIsKeptSpans(Pieces(watermark, Segment(step, start, T.Translated(raw).out).spans), Depth(a.want));
  }

  /** The data frames of a handshake carry the replay, and its other frames carry none. */
  lemma HandshakeCarriesReplay(c: Config, s: State, a: AttachRecord)
    requires Shaped(c, s, a)
    ensures DataOf(a.handshake) == c.engine.replay(s.drained[..a.at], Depth(a.want))
  {
    hide DataFrames, DataOf;
    var replay := c.engine.replay(s.drained[..a.at], Depth(a.want));
    var n := |DataFrames(replay)|;
    DataFramesCarry(replay);
    var rest := a.handshake[n..];
    assert a.handshake == DataFrames(replay) + rest;
    ContentsConcat(DataFrames(replay), rest);
    ControlCarriesNoData(rest);
  }

  lemma {:induction false} ControlCarriesNoData(fs: seq<OutFrame>)
    requires forall i :: 0 <= i < |fs| ==> !fs[i].DataFrame?
    ensures DataOf(fs) == []
  {
    if fs != [] {
      ControlCarriesNoData(Init(fs));
    }
  }

  // ------------------------------------------------------------ progress

  function Zeros(k: nat): seq<byte> {
    seq(k, _ => '0' as int)
  }

  /** A decimal of value `n` with `k` leading zeros, and perhaps a plus sign. */
  function Numeral(plus: bool, k: nat, n: nat): seq<byte> {
    (if plus then ['+' as int] else []) + Zeros(k) + Decimal(n)
  }

  lemma {:induction false} DigitsReadBack(k: nat, n: nat)
    ensures Decimal(n) != [] && IsDigit(Decimal(n)[0]) && DigitsValue(Zeros(k) + Decimal(n)) == Some(n)
    decreases n, k
  {
    var s := Zeros(k) + Decimal(n);
    if n >= 10 {
      DigitsReadBack(k, n / 10);
      assert Init(s) == Zeros(k) + Decimal(n / 10);
    } else if k > 0 {
      DigitsReadBack(k - 1, 0);
      assert Init(s) == Zeros(k - 1) + Decimal(0);
    } else {
      assert Init(s) == [];
    }
  }

  /** Conversely, every digit string is some decimal with leading zeros. */
  lemma {:induction false} DigitsAreNumeral(s: seq<byte>) returns (k: nat)
    requires s != [] && DigitsValue(s).Some?
    ensures s == Zeros(k) + Decimal(DigitsValue(s).value)
  {
    var front, d := Init(s), Last(s) - '0' as int;
    assert s == front + [Last(s)];
    if front == [] {
      k := 0;
      assert s == Zeros(0) + Decimal(d);
    } else {
      var z := DigitsAreNumeral(front);
      var m := DigitsValue(front).value;
      k := if m > 0 then z else z + 1;
      assert DigitsValue(s) == Some(10 * m + d);
      if m > 0 {
        assert Decimal(10 * m + d) == Decimal(m) + [Last(s)];
      } else {
        assert Zeros(z) + Decimal(0) == Zeros(z + 1);
      }
    }
  }

  lemma NumeralIsRead(plus: bool, k: nat, n: nat)
    ensures ParseU8(Numeral(plus, k, n)) == if n <= 255 then Some(n) else None
  {
    DigitsReadBack(k, n);
    var s, digits := Numeral(plus, k, n), Zeros(k) + Decimal(n);
    assert digits[0] == if k > 0 then '0' as int else Decimal(n)[0];
    hide Decimal, DigitsValue;
    if plus {
      assert s[0] == '+' as int && s[1..] == digits;
    } else {
      assert s == digits && s[0] != '+' as int;
    }
  }

  lemma ReadIsNumeral(s: seq<byte>) returns (plus: bool, k: nat)
    requires ParseU8(s).Some?
    ensures s == Numeral(plus, k, ParseU8(s).value)
  {
    hide Decimal, DigitsValue;
    plus := s[0] == '+' as int;
    k := DigitsAreNumeral(if plus then s[1..] else s);
    assert plus ==> s == ['+' as int] + s[1..];
  }

  /** Which texts are read as `n`: exactly its numerals, for an `n` of at most 255. */
  lemma {:induction false} ParseU8Spec(s: seq<byte>, n: nat)
    ensures ParseU8(s) == Some(n) <==> n <= 255 && exists plus: bool, k: nat :: s == Numeral(plus, k, n)
  {
    hide ParseU8, Numeral;
    if ParseU8(s) == Some(n) {
      var plus, k := ReadIsNumeral(s);
      NumeralIsRead(plus, k, n);
    }
    if plus: bool, k: nat :| s == Numeral(plus, k, n) {
      NumeralIsRead(plus, k, n);
    }
  }

  /** An OSC 9;4 report whose state does not clear. */
  predicate ReportsProgress(cb: Callback) {
    && cb.Osc?
    && FieldAt(cb.fields, 0) == Some(CODE_NOTIFY) && FieldAt(cb.fields, 1) == Some(['4' as int])
    && FieldAt(cb.fields, 2) != Some(['0' as int])
  }

  /** An OSC 9;4, in whatever state. */
  predicate TouchesProgress(cb: Callback) {
    cb.Osc? && FieldAt(cb.fields, 0) == Some(CODE_NOTIFY) && FieldAt(cb.fields, 1) == Some(['4' as int])
  }

  /** A report in a state other than 0 whose value field is a numeral of `n`. */
  ghost predicate ReportsValue(cb: Callback, n: nat) {
    && ReportsProgress(cb) && FieldAt(cb.fields, 3).Some?
    && exists plus: bool, k: nat :: FieldAt(cb.fields, 3).value == Numeral(plus, k, n)
  }

  lemma ProgressStep(status: Status, cb: Callback, n: nat)
    ensures StatusAfter(status, cb).progress == Some(n) <==>
            if TouchesProgress(cb) then n <= 255 && ReportsValue(cb, n) else status.progress == Some(n)
  {
    hide ParseU8, Numeral;
    if cb.Osc? && FieldAt(cb.fields, 3).Some? {
      ParseU8Spec(FieldAt(cb.fields, 3).value, n);
    }
  }

  /** The last OSC 9;4 among the callbacks is a report of `n`. */
  ghost predicate LastReportIs(calls: seq<Callback>, n: nat) {
    exists i :: 0 <= i < |calls| && ReportsLastAt(calls, i, n)
  }

  ghost predicate ReportsLastAt(calls: seq<Callback>, i: nat, n: nat)
    requires i < |calls|
  {
    ReportsValue(calls[i], n) && forall j :: i < j < |calls| ==> !TouchesProgress(calls[j])
  }

  lemma LastReportStep(calls: seq<Callback>, n: nat)
    requires calls != []
    ensures LastReportIs(calls, n) <==>
            if TouchesProgress(Last(calls)) then ReportsValue(Last(calls), n) else LastReportIs(Init(calls), n)
  {
    hide Numeral;
    var m := |calls| - 1;
    if LastReportIs(calls, n) {
      var i :| 0 <= i < |calls| && ReportsLastAt(calls, i, n);
      if i < m {
        assert ReportsLastAt(Init(calls), i, n);
      }
    }
    if TouchesProgress(Last(calls)) {
      if ReportsValue(Last(calls), n) {
        assert ReportsLastAt(calls, m, n);
      }
    } else if LastReportIs(Init(calls), n) {
      var i :| 0 <= i < m && ReportsLastAt(Init(calls), i, n);
      assert ReportsLastAt(calls, i, n);
    }
  }

  lemma {:induction false} ProgressOfCalls(s: SinkState, calls: seq<Callback>, n: nat)
    requires s.status == IDLE
    ensures SinkFold(s, calls).status.progress == Some(n) <==> n <= 255 && LastReportIs(calls, n)
  {
    if calls != [] {
      hide StatusAfter, LastReportIs, ReportsValue, TouchesProgress;
      ProgressOfCalls(s, Init(calls), n);
      ProgressStep(SinkFold(s, Init(calls)).status, Last(calls), n);
      LastReportStep(calls, n);
    }
  }

  /**
   * The progress after any run is `n` exactly if the last OSC 9;4 of the run is a report of `n`, of at most 255:
   * nothing is clamped, and the documented bound of 100 is exceeded exactly by such reports above it.
   */
  lemma {:induction false} ProgressIsLastReport<P>(step: ParserStep<P>, start: P, input: seq<byte>, n: nat)
    ensures Segment(step, start, input).sink.status.progress == Some(n) <==>
            n <= 255 && LastReportIs(AllCalls(step, start, input), n)
  {
    hide LastReportIs;
    StatusOfRun(step, start, input);
    ProgressOfCalls(FRESH_SINK, AllCalls(step, start, input), n);
  }

  /** A report of any numeral, 150 among them: cleared by state 0, tracked as it is up to 255, unset beyond. */
  lemma ProgressIsTracked(status: Status, state: seq<byte>, plus: bool, k: nat, n: nat)
    ensures StatusAfter(status, Osc([CODE_NOTIFY, ['4' as int], state, Numeral(plus, k, n)])).progress ==
            if state == ['0' as int] || n > 255 then None else Some(n)
  {
    NumeralIsRead(plus, k, n);
    hide ParseU8, Numeral;
  }
}
