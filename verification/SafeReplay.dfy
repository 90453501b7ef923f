/**
 * What a replay may do to the terminal that reads it. It is meant to ring no bell, raise no notification, touch
 * no clipboard and ask for no answer; the sink refuses some callbacks to that end, and not all that it would take.
 */
module SafeReplay {
  import opened Bytes
  import opened Callbacks
  import opened Prologue
  import opened Ring
  import opened Sink
  import opened Scanner
  import opened ReplayTheorems
  import opened SanitiserTheorems
  import opened RereadTheorems

  // ------------------------------------------------------- what disturbs

  predicate Rings(cb: Callback) {
    cb.Execute? && cb.control == BEL
  }

  predicate Notifies(cb: Callback) {
    cb.Osc? && (FieldAt(cb.fields, 0) == Some(CODE_NOTIFY) || FieldAt(cb.fields, 0) == Some(CODE_NOTIFY_RXVT))
  }

  predicate SetsClipboard(cb: Callback) {
    cb.Osc? && FieldAt(cb.fields, 0) == Some(CODE_CLIPBOARD)
  }

  // The OSC codes of the palette, of the foreground, the background and the cursor.
  const CODE_PALETTE: seq<byte> := ['4' as int]
  const CODE_FOREGROUND: seq<byte> := ['1' as int, '0' as int]
  const CODE_BACKGROUND: seq<byte> := ['1' as int, '1' as int]
  const CODE_CURSOR: seq<byte> := ['1' as int, '2' as int]

  predicate IsColourCode(code: Option<seq<byte>>) {
    || code == Some(CODE_PALETTE) || code == Some(CODE_FOREGROUND)
    || code == Some(CODE_BACKGROUND) || code == Some(CODE_CURSOR)
  }

  /** The terminal answers it into the shell's input: status and attributes, a mode, its version, a colour. */
  predicate Queries(cb: Callback) {
    || (cb.Csi? &&
        (|| cb.action == 'n' as int || cb.action == 'c' as int
         || (cb.action == 'p' as int && '$' as int in cb.intermediates)
         || (cb.action == 'q' as int && '>' as int in cb.intermediates)))
    || (cb.Osc? && IsColourCode(FieldAt(cb.fields, 0)) && ['?' as int] in cb.fields[1..])
  }

  predicate Disturbs(cb: Callback) {
    Rings(cb) || Notifies(cb) || SetsClipboard(cb) || Queries(cb)
  }

  // --------------------------------------------------- what is refused

  /** What the sink drops by itself. */
  predicate Refused(cb: Callback) {
    || Rings(cb)
    || (cb.Osc? && DroppedCode(FieldAt(cb.fields, 0)))
    || (cb.Csi? && (cb.action == 'n' as int || cb.action == 'c' as int))
  }

  /** It is dropped whatever came before; and of the disturbing callbacks only some queries are kept instead. */
  lemma RefusedIsDropped(stPending: Option<SegEvent>, cb: Callback)
    ensures Refused(cb) ==> EventOf(stPending, cb) == DropSeq
    ensures EventOf(None, cb) == DropSeq ==> Refused(cb)
    ensures Disturbs(cb) && !Refused(cb) ==> Queries(cb) && EventOf(stPending, cb) == KeepSeq
  {
  }

  // ------------------------------------------------- bytes and callbacks

  ghost predicate Holds(bad: Callback -> bool, cbs: seq<Callback>) {
    exists i :: 0 <= i < |cbs| && bad(cbs[i])
  }

  /** One of them comes ahead of another callback of the same byte. */
  ghost predicate Hides(bad: Callback -> bool, cbs: seq<Callback>) {
    exists i :: 0 <= i < |cbs| - 1 && bad(cbs[i])
  }

  /** One of them gets past the sink: ahead of another callback of the same byte, or because it is kept itself. */
  ghost predicate Slips(bad: Callback -> bool, cbs: seq<Callback>) {
    exists i :: 0 <= i < |cbs| && bad(cbs[i]) && (i < |cbs| - 1 || EventOf(None, cbs[i]).Keeps())
  }

  /** The callbacks of one byte among those read from `p`. */
  function CallsAt<P>(step: ParserStep<P>, p: P, bytes: seq<byte>, i: nat): seq<Callback>
    requires i < |bytes|
  {
    step(Read(step, p, bytes[..i]).parser, bytes[i]).1
  }

  lemma HoldsConcat(bad: Callback -> bool, a: seq<Callback>, b: seq<Callback>)
    ensures Holds(bad, a + b) <==> Holds(bad, a) || Holds(bad, b)
  {
    if Holds(bad, a) {
      var i :| 0 <= i < |a| && bad(a[i]);
      assert (a + b)[i] == a[i];
    }
    if Holds(bad, b) {
      var i :| 0 <= i < |b| && bad(b[i]);
      assert (a + b)[|a| + i] == b[i];
    }
  }

  /** What is read holds one exactly if one of its bytes does. */
  lemma {:induction false} ReadHolds<P>(step: ParserStep<P>, p: P, bytes: seq<byte>, bad: Callback -> bool)
    ensures Holds(bad, Read(step, p, bytes).calls) <==>
            exists i :: 0 <= i < |bytes| && Holds(bad, CallsAt(step, p, bytes, i))
    decreases |bytes|
  {
    if bytes != [] {
      var front, n := Init(bytes), |bytes| - 1;
      ReadHolds(step, p, front, bad);
      HoldsConcat(bad, Read(step, p, front).calls, CallsAt(step, p, bytes, n));
      hide Holds, Read;
      assert bytes[..n] == front;
      forall i | 0 <= i < n
        ensures CallsAt(step, p, bytes, i) == CallsAt(step, p, front, i)
      {
        assert bytes[..i] == front[..i];
      }
      assert Read(step, p, bytes).calls == Read(step, p, front).calls + CallsAt(step, p, bytes, n) by {
        ReadSnoc(step, p, front, Last(bytes));
        assert bytes == front + [Last(bytes)];
      }
    }
  }

  /** A byte whose last callback is none of them, or is kept, holds one exactly if it lets one slip. */
  lemma HoldsIffSlips(bad: Callback -> bool, cbs: seq<Callback>)
    requires cbs != [] && bad(Last(cbs)) ==> EventOf(None, Last(cbs)).Keeps()
    ensures Holds(bad, cbs) <==> Slips(bad, cbs)
  {
  }

  /** A kept span ends on a callback that is kept by itself, unless that is an escape. */
  lemma KeptEndsKept(s: Span)
    requires KeptToken(s)
    ensures s.calls != []
    ensures !Last(s.calls).Esc? ==> EventOf(None, Last(s.calls)).Keeps()
  {
    var p: Option<SegEvent> :| InContext(p, s);
  }

  lemma CallsEndWithLast<P>(step: ParserStep<P>, p: P, bytes: seq<byte>)
    requires bytes != [] && CallsAt(step, p, bytes, |bytes| - 1) != []
    ensures var calls := Read(step, p, bytes).calls;
            calls != [] && Last(calls) == Last(CallsAt(step, p, bytes, |bytes| - 1))
  {
    assert bytes[..|bytes| - 1] == Init(bytes);
  }

  /**
   * For every parser, and any callbacks but escapes: a kept span holds one exactly if one of its bytes lets one
   * slip.
   */
  lemma KeptSpanHoldsIff<P>(step: ParserStep<P>, start: P, input: seq<byte>, s: Span, bad: Callback -> bool)
    requires InPlace(step, start, input, s) && KeptToken(s)
    requires forall cb :: bad(cb) ==> !cb.Esc? && !cb.Hook? && !cb.Put?
    ensures Holds(bad, s.calls) <==>
            exists i :: 0 <= i < |s.bytes| && Slips(bad, CallsAt(step, Entry(step, start, input, s), s.bytes, i))
  {
    hide Read, AtBoundary, KeptToken, Holds, Slips, Entry, EventOf;
    var p := Entry(step, start, input, s);
    ReadHolds(step, p, s.bytes, bad);
    KeptEndsKept(s);
    forall i | 0 <= i < |s.bytes|
      ensures Holds(bad, CallsAt(step, p, s.bytes, i)) <==> Slips(bad, CallsAt(step, p, s.bytes, i))
    {
      var cbs := CallsAt(step, p, s.bytes, i);
      if i < |s.bytes| - 1 {
        assert s.bytes[..i] == Init(s.bytes)[..i];
        assert !CompletesAt(step, p, Init(s.bytes), i);
        assert cbs == [] || Last(cbs).Hook? || Last(cbs).Put?;
      } else {
        CallsEndWithLast(step, p, s.bytes);
      }
      HoldsIffSlips(bad, cbs);
    }
  }

  lemma {:induction false} KeptAreTokens(spans: seq<Span>)
    requires Classified(spans)
    ensures forall s :: s in spans && s.event.Keeps() ==> KeptToken(s)
  {
    if spans != [] {
      KeptAreTokens(Init(spans));
      if Last(spans).event.Keeps() {
        assert InContext(PendingBehind(Init(spans)), Last(spans));
      }
    }
  }

  /** What the sink refuses slips only ahead of another callback. */
  lemma RefusedSlipsHidden(bad: Callback -> bool, cbs: seq<Callback>)
    requires forall cb :: bad(cb) ==> Refused(cb)
    ensures Slips(bad, cbs) <==> Hides(bad, cbs)
  {
    forall cb | bad(cb)
      ensures EventOf(None, cb) == DropSeq
    {
      RefusedIsDropped(None, cb);
    }
    hide EventOf, Refused;
  }

  /** If no byte hides a refused callback, no kept span holds one. */
  lemma KeptSpansHoldNoneRefused<P>(step: ParserStep<P>, start: P, input: seq<byte>, s: Span)
    requires forall i :: 0 <= i < |input| ==> !Hides(Refused, CallsAt(step, start, input, i))
    requires s in Segment(step, start, input).spans && s.event.Keeps()
    ensures !Holds(Refused, s.calls)
  {
    hide Segment, KeptToken, Classified, Read, Entry, Refused, Holds, Slips, Hides, OneSpan, AtBoundary;
    SpansAreInPlace(step, start, input);
    SegmentIsClassified(step, start, input);
    KeptAreTokens(Segment(step, start, input).spans);
    RefusedIsNoEscape();
    KeptSpanHoldsIff(step, start, input, s, Refused);
    forall i | 0 <= i < |s.bytes|
      ensures !Slips(Refused, CallsAt(step, Entry(step, start, input, s), s.bytes, i))
    {
      CallsInPlace(step, start, input, s, i);
      RefusedSlipsHidden(Refused, CallsAt(step, start, input, s.at + i));
    }
  }

  lemma RefusedIsNoEscape()
    ensures forall cb :: Refused(cb) || Disturbs(cb) ==> !cb.Esc? && !cb.Hook? && !cb.Put?
  {
  }

  // ---------------------------------------------------------- whole runs

  lemma {:induction false} SpansGrow<P>(step: ParserStep<P>, start: P, a: seq<byte>, b: seq<byte>)
    ensures Segment(step, start, a).spans <= Segment(step, start, a + b).spans
  {
    if b == [] {
      assert a + b == a;
    } else {
      hide Segment, Completes;
      SpansGrow(step, start, a, Init(b));
      SegmentSnoc(step, start, a + Init(b), Last(b));
      assert a + b == a + Init(b) + [Last(b)];
    }
  }

  /** A byte that ends on a callback kept by itself ends a kept span, with all its callbacks. */
  lemma KeptCallEndsSpan<P>(step: ParserStep<P>, start: P, input: seq<byte>, i: nat)
    returns (s: Span, before: seq<Callback>)
    requires i < |input|
    requires var cbs := CallsAt(step, start, input, i);
             cbs != [] && !Last(cbs).Esc? && EventOf(None, Last(cbs)).Keeps()
    ensures s in Segment(step, start, input).spans && s.event.Keeps()
    ensures s.calls == before + CallsAt(step, start, input, i)
  {
    hide Segment, Read, PendingBehind;
    var front, x := input[..i], input[..i + 1];
    assert x == front + [input[i]] && input == x + input[i + 1..];
    SpansConserveInput(step, start, front);
    SegmentSnoc(step, start, front, input[i]);
    LastIsClassified(step, start, x);
    SpansGrow(step, start, x, input[i + 1..]);
    s, before := Last(Segment(step, start, x).spans), Segment(step, start, front).calls;
  }

  /** A byte of a span is a byte of the input. */
  lemma CallsInPlace<P>(step: ParserStep<P>, start: P, input: seq<byte>, s: Span, i: nat)
    requires InPlace(step, start, input, s) && i < |s.bytes|
    ensures CallsAt(step, Entry(step, start, input, s), s.bytes, i) == CallsAt(step, start, input, s.at + i)
  {
    hide OneSpan, AtBoundary;
    assert input[..s.at + i] == input[..s.at] + s.bytes[..i];
    ReadConcat(step, start, input[..s.at], s.bytes[..i]);
    assert input[s.at + i] == s.bytes[i];
  }

  /**
   * For every settled parser, and any sequences: some kept span of a run holds one exactly if some byte of the
   * run lets one slip. A sequence that the sink keeps slips whenever it is reported, one that it refuses only
   * ahead of another callback.
   */
  lemma {:induction false} KeptSequenceIff<P(!new)>(
    step: ParserStep<P>, start: P, input: seq<byte>, bad: Callback -> bool)
    requires Settled(step) && forall cb :: bad(cb) ==> TracksState(cb)
    ensures (exists s :: s in Segment(step, start, input).spans && s.event.Keeps() && Holds(bad, s.calls))
            <==> exists i :: 0 <= i < |input| && Slips(bad, CallsAt(step, start, input, i))
  {
    hide Segment, InPlace, KeptToken, Classified, Read, Entry, EventOf, Slips;
    SpansAreInPlace(step, start, input);
    SegmentIsClassified(step, start, input);
    KeptAreTokens(Segment(step, start, input).spans);
    if s :| s in Segment(step, start, input).spans && s.event.Keeps() && Holds(bad, s.calls) {
      KeptSpanHoldsIff(step, start, input, s, bad);
      var i :| 0 <= i < |s.bytes| && Slips(bad, CallsAt(step, Entry(step, start, input, s), s.bytes, i));
      CallsInPlace(step, start, input, s, i);
      SpanFits(step, start, input, s);
      assert Slips(bad, CallsAt(step, start, input, s.at + i));
    }
    if i :| 0 <= i < |input| && Slips(bad, CallsAt(step, start, input, i)) {
      var cbs := CallsAt(step, start, input, i);
      SlipsBeforeKept(step, Read(step, start, input[..i]).parser, input[i], bad);
      var s, before := KeptCallEndsSpan(step, start, input, i);
      HoldsConcat(bad, before, cbs);
    }
  }

  lemma SpanFits<P>(step: ParserStep<P>, start: P, input: seq<byte>, s: Span)
    requires InPlace(step, start, input, s)
    ensures s.at + |s.bytes| <= |input|
  {
  }

  lemma SlipsBeforeKept<P(!new)>(step: ParserStep<P>, p: P, b: byte, bad: Callback -> bool)
    requires Settled(step) && Slips(bad, step(p, b).1) && forall cb :: bad(cb) ==> TracksState(cb)
    ensures var cbs := step(p, b).1;
            Holds(bad, cbs) && !Last(cbs).Esc? && EventOf(None, Last(cbs)).Keeps()
  {
    var cbs := step(p, b).1;
    assert SettledCalls(cbs);
    var i :| 0 <= i < |cbs| && bad(cbs[i]) && (i < |cbs| - 1 || EventOf(None, cbs[i]).Keeps());
    assert TracksState(cbs[i]);
  }

  predicate DisturbingSequence(cb: Callback) {
    Disturbs(cb) && !Rings(cb)
  }

  /**
   * The documented promise, for sequences: some kept span of a run disturbs exactly if some byte reports a query
   * that the sink does not refuse, or a disturbing sequence ahead of another callback.
   */
  lemma {:induction false} RunDisturbsIff<P(!new)>(step: ParserStep<P>, start: P, input: seq<byte>)
    requires Settled(step)
    ensures (exists s :: s in Segment(step, start, input).spans && s.event.Keeps()
                         && Holds(DisturbingSequence, s.calls))
            <==> exists i :: 0 <= i < |input| && DisturbanceGetsBy(CallsAt(step, start, input, i))
  {
    hide Segment, Settled, CallsAt;
    forall cb | DisturbingSequence(cb)
      ensures TracksState(cb)
    {
    }
    KeptSequenceIff(step, start, input, DisturbingSequence);
    forall i | 0 <= i < |input|
      ensures Slips(DisturbingSequence, CallsAt(step, start, input, i))
              <==> DisturbanceGetsBy(CallsAt(step, start, input, i))
    {
      SlippingDisturbance(CallsAt(step, start, input, i));
    }
  }

  predicate UnrefusedQuery(cb: Callback) {
    Queries(cb) && !Refused(cb)
  }

  ghost predicate DisturbanceGetsBy(cbs: seq<Callback>) {
    Holds(UnrefusedQuery, cbs) || Hides(DisturbingSequence, cbs)
  }

  lemma SlippingDisturbance(cbs: seq<Callback>)
    ensures Slips(DisturbingSequence, cbs) <==> DisturbanceGetsBy(cbs)
  {
    forall cb: Callback
      ensures DisturbingSequence(cb) && EventOf(None, cb).Keeps() <==> UnrefusedQuery(cb)
    {
      RefusedIsDropped(None, cb);
    }
    hide EventOf, Disturbs, Refused, Queries, DisturbingSequence, UnrefusedQuery;
  }

  // -------------------------------------------------------- whole replays

  /** What no prologue holds; escapes would designate character sets. */
  predicate Foreign(cb: Callback) {
    Disturbs(cb) || Refused(cb) || cb.Esc?
  }

  lemma PrintedCallIsQuiet(v: Visual, c: Control)
    requires c in CLEAR_CONTROLS + Controls(v)
    ensures !Foreign(ControlCall(c))
  {
    hide Singletons;
    assert c.Sequence? ==> c.final in ['m' as int, 'h' as int, 'r' as int, 'J' as int, 'H' as int];
    assert c.Str? ==> c.code == '7' || c.code == '2';
  }

  lemma CallsAreQuiet(v: Visual, cs: seq<Control>)
    requires forall c :: c in cs ==> c in CLEAR_CONTROLS + Controls(v)
    ensures !Holds(Foreign, CallsOf(cs))
  {
    hide Foreign, ControlCall, Controls;
    forall i | 0 <= i < |cs|
      ensures !Foreign(CallsOf(cs)[i])
    {
      assert cs[i] in cs;
      PrintedCallIsQuiet(v, cs[i]);
    }
  }

  lemma {:induction false} PrologueIsQuiet(prologue: seq<byte>)
    requires Printed(prologue)
    ensures !Holds(Foreign, Interpret(prologue))
  {
    if prologue == [] {
      assert Interpret([]) == [];
    } else {
      var v: Visual :| PrintedFrom(v, prologue);
      hide Interpret, Serialized, CallsOf, Holds, WellFormed, Foreign, Controls;
      PrologueIsRead(v);
      CallsAreQuiet(v, Controls(v));
      CallsAreQuiet(v, CLEAR_CONTROLS + Controls(v));
    }
  }

  /** What the spans hold together, some one of them holds. */
  lemma {:induction false} SpanCallsHold(bad: Callback -> bool, ts: seq<Span>)
    ensures Holds(bad, SpanCalls(ts)) <==> exists t :: t in ts && Holds(bad, t.calls)
  {
    if ts == [] {
      NoSpans();
      assert !Holds(bad, []);
    } else {
      hide SpanCalls, Holds;
      var front, t := Init(ts), Last(ts);
      assert ts == front + [t];
      SpanCallsHold(bad, front);
      SpansSnoc(front, t);
      HoldsConcat(bad, SpanCalls(front), t.calls);
    }
  }

  lemma ReplayedAreKept<P>(step: ParserStep<P>, start: P, input: seq<byte>, watermark: nat, k: nat)
    requires k <= |Pieces(watermark, Segment(step, start, input).spans)|
    ensures var spans := Segment(step, start, input).spans;
            forall t :: t in KeptIn(Pieces(watermark, spans)[k..]) ==> t in spans && t.event.Keeps()
  {
    hide KeptIn, Segment;
    var spans := Segment(step, start, input).spans;
    PiecesHoldSince(watermark, spans);
    SinceIsKept(spans);
    KeptInSplits(Pieces(watermark, spans), k);
  }

  lemma {:induction false} SinceIsKept(spans: seq<Span>)
    ensures forall s :: s in Since(spans) ==> s in spans && s.event.Keeps()
  {
    if spans != [] {
      SinceIsKept(Init(spans));
    }
  }

  /** The prologue of a replay is quiet. */
  lemma SelectedIsQuiet<P(!new)>(step: ParserStep<P>, start: P, input: seq<byte>, watermark: nat, want: nat)
    requires Clean(step) && Settled(step)
    ensures !Holds(Foreign, Interpret(Selected(step, start, input, watermark, want).prologue))
  {
    hide Segment, KeptIn, Holds, Interpret, Printed, Linked, Clean, Settled;
    var spans := Segment(step, start, input).spans;
    var ps := Pieces(watermark, spans);
    SegmentIsLinked(step, start, input);
    ProloguesArePrinted(watermark, spans, ReplayStart(|ps|, want));
    PrologueIsQuiet(ps[ReplayStart(|ps|, want)].prologue);
  }

  predicate IsEscape(cb: Callback) {
    cb.Esc?
  }

  /**
   * Escapes, character sets among them, are not tracked, and no prologue re-establishes them: a replay holds
   * those of its kept spans, and no other.
   */
  lemma {:induction false} EscapesAreUntracked<P(!new)>(
    step: ParserStep<P>, start: P, input: seq<byte>, watermark: nat, want: nat, v: Visual, final: byte)
    requires Clean(step) && Settled(step)
    ensures VisualAfter(v, Esc(final)) == v
    ensures var sel := Selected(step, start, input, watermark, want);
            Holds(IsEscape, Interpret(sel.prologue) + SpanCalls(sel.kept))
            <==> exists t :: t in sel.kept && Holds(IsEscape, t.calls)
  {
    hide Selected, Interpret, SpanCalls, Clean, Settled;
    var sel := Selected(step, start, input, watermark, want);
    SelectedIsQuiet(step, start, input, watermark, want);
    HoldsConcat(IsEscape, Interpret(sel.prologue), SpanCalls(sel.kept));
    SpanCallsHold(IsEscape, sel.kept);
  }

  /** If no byte hides a refused callback, no replay holds one: not its prologue, and no kept span. */
  lemma {:induction false} ReplayHoldsNoneRefused<P(!new)>(
    step: ParserStep<P>, start: P, input: seq<byte>, watermark: nat, want: nat)
    requires Clean(step) && Settled(step)
    requires forall i :: 0 <= i < |input| ==> !Hides(Refused, CallsAt(step, start, input, i))
    ensures var sel := Selected(step, start, input, watermark, want);
            !Holds(Refused, Interpret(sel.prologue)) && !Holds(Refused, SpanCalls(sel.kept))
  {
    hide Segment, KeptIn, SpanCalls, Interpret, Clean, Settled, CallsAt, Refused;
    var ps := Pieces(watermark, Segment(step, start, input).spans);
    var k := ReplayStart(|ps|, want);
    SelectedIsQuiet(step, start, input, watermark, want);
    QuietHoldsNone(Interpret(ps[k].prologue));
    ReplayedAreKept(step, start, input, watermark, k);
    forall t | t in KeptIn(ps[k..])
      ensures !Holds(Refused, t.calls)
    {
      KeptSpansHoldNoneRefused(step, start, input, t);
    }
    SpanCallsHold(Refused, KeptIn(ps[k..]));
  }

  lemma QuietHoldsNone(cbs: seq<Callback>)
    requires !Holds(Foreign, cbs)
    ensures !Holds(Refused, cbs) && !Holds(Disturbs, cbs)
  {
    hide Refused, Disturbs;
  }

  /** What replayed bytes cause again, if the kept spans join up: the prologue's callbacks and those recorded. */
  lemma RereadCalls<P>(step: ParserStep<P>, start: P, input: seq<byte>, watermark: nat, want: nat)
    requires var sel := Selected(step, start, input, watermark, want);
             ReadsPrologue(step, start, sel.prologue) && JoinsUp(step, start, input, sel.kept)
    ensures var sel := Selected(step, start, input, watermark, want);
            AllCalls(step, start, sel.prologue + SpanBytes(sel.kept)) == Interpret(sel.prologue) + SpanCalls(sel.kept)
  {
    hide Segment, KeptIn, InPlace, KeptToken, SpanCalls, SpanBytes, Interpret, Read, JoinsUp;
    var ps := Pieces(watermark, Segment(step, start, input).spans);
    var k := ReplayStart(|ps|, want);
    ReplayedAreInPlace(step, start, input, watermark, k);
    JoinedCalls(step, start, input, KeptIn(ps[k..]));
    ReadConcat(step, start, ps[k].prologue, SpanBytes(KeptIn(ps[k..])));
  }

  /** Nor do its bytes cause a refused callback when a fresh parser reads them, if the kept spans join up. */
  lemma {:induction false} RereadHoldsNoneRefused<P(!new)>(
    step: ParserStep<P>, start: P, input: seq<byte>, watermark: nat, want: nat)
    requires Clean(step) && Settled(step)
    requires forall i :: 0 <= i < |input| ==> !Hides(Refused, CallsAt(step, start, input, i))
    ensures var sel := Selected(step, start, input, watermark, want);
            ReadsPrologue(step, start, sel.prologue) && JoinsUp(step, start, input, sel.kept) ==>
              !Holds(Refused, AllCalls(step, start, sel.prologue + SpanBytes(sel.kept)))
  {
    hide Segment, Holds, SpanCalls, SpanBytes, Interpret, Read, JoinsUp, Clean, Settled, CallsAt, Selected;
    hide ReadsPrologue, Refused;
    var sel := Selected(step, start, input, watermark, want);
    ReplayHoldsNoneRefused(step, start, input, watermark, want);
    if ReadsPrologue(step, start, sel.prologue) && JoinsUp(step, start, input, sel.kept) {
      RereadCalls(step, start, input, watermark, want);
      HoldsConcat(Refused, Interpret(sel.prologue), SpanCalls(sel.kept));
    }
  }

  /**
   * The documented promise, on bytes: if the kept spans join up, a fresh parser that reads a replay is disturbed
   * exactly if some byte of a kept span let a disturbance slip.
   */
  lemma {:induction false} RereadDisturbsIff<P(!new)>(
    step: ParserStep<P>, start: P, input: seq<byte>, watermark: nat, want: nat)
    requires Clean(step) && Settled(step)
    ensures var sel := Selected(step, start, input, watermark, want);
            ReadsPrologue(step, start, sel.prologue) && JoinsUp(step, start, input, sel.kept) ==>
              (Holds(Disturbs, AllCalls(step, start, sel.prologue + SpanBytes(sel.kept)))
               <==> exists t :: t in sel.kept && LetsSlip(step, start, input, t))
  {
    hide Segment, Holds, SpanCalls, SpanBytes, Interpret, Read, JoinsUp, Clean, Settled, KeptIn, Disturbs;
    hide ReadsPrologue, LetsSlip, InPlace, KeptToken;
    var sel := Selected(step, start, input, watermark, want);
    if ReadsPrologue(step, start, sel.prologue) && JoinsUp(step, start, input, sel.kept) {
      SelectedIsQuiet(step, start, input, watermark, want);
      QuietHoldsNone(Interpret(sel.prologue));
      RereadCalls(step, start, input, watermark, want);
      HoldsConcat(Disturbs, Interpret(sel.prologue), SpanCalls(sel.kept));
      SpanCallsHold(Disturbs, sel.kept);
      var ps := Pieces(watermark, Segment(step, start, input).spans);
      ReplayedAreInPlace(step, start, input, watermark, ReplayStart(|ps|, want));
      RefusedIsNoEscape();
      forall t | t in sel.kept
        ensures Holds(Disturbs, t.calls) <==> LetsSlip(step, start, input, t)
      {
        KeptSpanHoldsIff(step, start, input, t, Disturbs);
        hide CallsAt;
        SlipsSomewhere(step, start, input, t);
      }
    }
  }

  ghost predicate LetsSlip<P>(step: ParserStep<P>, start: P, input: seq<byte>, t: Span) {
    exists i :: 0 <= i < |t.bytes| && Slips(Disturbs, CallsAt(step, Entry(step, start, input, t), t.bytes, i))
  }

  lemma SlipsSomewhere<P>(step: ParserStep<P>, start: P, input: seq<byte>, t: Span)
    ensures LetsSlip(step, start, input, t) <==>
            exists i :: 0 <= i < |t.bytes| && Slips(Disturbs, CallsAt(step, Entry(step, start, input, t), t.bytes, i))
  {
  }

  // ------------------------------------------------- the fate of a span

  /** What erases the screen: a CSI J whose first parameter is 2 or 3, and a full reset. */
  predicate Erases(cb: Callback) {
    || (cb.Csi? && cb.action == 'J' as int && cb.params != [] && cb.params[0] != []
        && (cb.params[0][0] == 2 || cb.params[0][0] == 3))
    || (cb.Esc? && cb.final == 'c' as int)
  }

  /** A string terminator right behind a control string that is refused. */
  predicate EndsRefused(calls: seq<Callback>) {
    && |calls| >= 2 && Last(calls) == Esc(BACKSLASH)
    && calls[|calls| - 2].Osc? && Refused(calls[|calls| - 2])
  }

  lemma FateOfLast(stPending: Option<SegEvent>, calls: seq<Callback>)
    requires calls != []
    requires |calls| >= 2 ==> stPending == PendingAfter(calls[|calls| - 2])
    requires |calls| == 1 ==> stPending == None
    ensures var event := EventOf(stPending, Last(calls));
            && (event.ClearSeq? <==> Erases(Last(calls)))
            && (event.DropSeq? <==> Refused(Last(calls)) || EndsRefused(calls))
            && (event.Nothing? <==> Last(calls).Hook? || Last(calls).Put?)
  {
  }

  /** Behind some spans and within one, what came right before its last callback. */
  lemma PendingIsBefore(spans: seq<Span>, s: Span)
    requires Classified(spans) && s.calls != []
    ensures var calls := SpanCalls(spans + [s]);
            && calls != [] && Last(calls) == Last(s.calls)
            && Classify(PendingBehind(spans), s.calls)
               == EventOf(if |calls| == 1 then None else PendingAfter(calls[|calls| - 2]), Last(calls))
  {
    hide PendingAfter, EventOf, SpanCalls;
    SpansSnoc(spans, s);
    if spans != [] {
      SpansSnoc(Init(spans), Last(spans));
      assert spans == Init(spans) + [Last(spans)];
      assert SpanCalls(spans) == SpanCalls(Init(spans)) + Last(spans).calls;
    } else {
      NoSpans();
    }
  }

  /**
   * Every span's fate, for every parser and input, by the callbacks of the run alone: it clears exactly if its
   * last callback erases the screen; it is dropped exactly if its last callback is refused, or terminates a
   * refused control string; and it is kept otherwise.
   */
  lemma {:induction false} SpanFate<P>(step: ParserStep<P>, start: P, input: seq<byte>, n: nat)
    ensures var spans := Segment(step, start, input).spans;
            n < |spans| ==>
              var calls := SpanCalls(spans[..n + 1]);
              && calls != []
              && (spans[n].event.ClearSeq? <==> Erases(Last(calls)))
              && (spans[n].event.DropSeq? <==> Refused(Last(calls)) || EndsRefused(calls))
              && (spans[n].event.Keeps() <==> !Erases(Last(calls)) && !Refused(Last(calls)) && !EndsRefused(calls))
  {
    hide Segment, SpanCalls, Erases, Refused, EndsRefused, EventOf, PendingAfter, Classify, PendingBehind;
    var spans := Segment(step, start, input).spans;
    SegmentIsClassified(step, start, input);
    if n < |spans| {
      ClassifiedAt(spans, n);
      assert spans[..n + 1] == spans[..n] + [spans[n]];
      PendingIsBefore(spans[..n], spans[n]);
      var calls := SpanCalls(spans[..n + 1]);
      FateOfLast(if |calls| == 1 then None else PendingAfter(calls[|calls| - 2]), calls);
      SpanIsNotNothing(step, start, input, n);
      FatesExclude(spans[n].event, calls);
    }
  }

  lemma {:induction false} ClassifiedAt(spans: seq<Span>, n: nat)
    requires Classified(spans) && n < |spans|
    ensures Classified(spans[..n]) && spans[n].calls != []
    ensures spans[n].event == Classify(PendingBehind(spans[..n]), spans[n].calls)
    decreases |spans|
  {
    hide Classify, PendingBehind;
    if n < |spans| - 1 {
      ClassifiedAt(Init(spans), n);
      assert Init(spans)[..n] == spans[..n];
    } else {
      assert spans[..n] == Init(spans);
    }
  }

  lemma {:induction false} SpanIsNotNothing<P>(step: ParserStep<P>, start: P, input: seq<byte>, n: nat)
    requires n < |Segment(step, start, input).spans|
    ensures !Segment(step, start, input).spans[n].event.Nothing?
    decreases |input|
  {
    if input != [] {
      hide SinkFold;
      if n < |Segment(step, start, Init(input)).spans| {
        SpanIsNotNothing(step, start, Init(input), n);
      }
    }
  }

  lemma FatesExclude(event: SegEvent, calls: seq<Callback>)
    requires calls != [] && !event.Nothing?
    requires event.ClearSeq? <==> Erases(Last(calls))
    requires event.DropSeq? <==> Refused(Last(calls)) || EndsRefused(calls)
    ensures event.Keeps() <==> !Erases(Last(calls)) && !Refused(Last(calls)) && !EndsRefused(calls)
  {
  }

  /** So the ring starts over exactly at a span that erases: the base is that clear's, and what was kept is gone. */
  lemma {:induction false} RingStartsOverAtErasure<P>(step: ParserStep<P>, start: P, input: seq<byte>, n: nat)
    ensures var spans := Segment(step, start, input).spans;
            n < |spans| ==>
              var before, s := spans[..n], spans[n];
              s.calls != [] &&
              if Erases(Last(s.calls)) then
                && Base(before + [s]) == CLEAR_HOME + Serialized(s.after) && Since(before + [s]) == []
              else
                && Base(before + [s]) == Base(before)
                && Since(before + [s]) == Since(before) + (if s.event.Keeps() then [s] else [])
  {
    hide Segment, Erases, Refused, EndsRefused, Serialized, SpanCalls;
    var spans := Segment(step, start, input).spans;
    SpanFate(step, start, input, n);
    SegmentIsClassified(step, start, input);
    if n < |spans| {
      ClassifiedAt(spans, n);
      PendingIsBefore(spans[..n], spans[n]);
      assert spans[..n + 1] == spans[..n] + [spans[n]];
      assert Init(spans[..n] + [spans[n]]) == spans[..n];
    }
  }

  lemma ClearControlsAre()
    ensures CLEAR_HOME == [0x1b, 0x5b, 0x32, 0x4a, 0x1b, 0x5b, 0x48]
    ensures var calls := CallsOf(CLEAR_CONTROLS);
            && |calls| == 2 && Erases(calls[0])
            && calls[1].Csi? && calls[1].action == 'H' as int && calls[1].params == [[0]]
  {
    assert Singletons([2])[0] == [2];
  }

  /** What the base of a clear is read as: it erases the screen, homes the cursor, and then sets the state. */
  lemma BaseErasesAndHomes(v: Visual)
    requires WellFormed(v)
    ensures var calls := Interpret(CLEAR_HOME + Serialized(v));
            && |calls| >= 2 && Erases(calls[0])
            && calls[1].Csi? && calls[1].action == 'H' as int && calls[1].params == [[0]]
            && calls[2..] == Interpret(Serialized(v))
            && CLEAR_HOME == [0x1b, 0x5b, 0x32, 0x4a, 0x1b, 0x5b, 0x48]
  {
    PrologueIsRead(v);
    CallsConcat(CLEAR_CONTROLS, Controls(v));
    ClearControlsAre();
    hide *;
  }
}
