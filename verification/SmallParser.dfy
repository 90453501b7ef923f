/**
 * A small parser of text, escapes, control sequences and control strings. It is `Clean` and `Settled`, reads
 * every prologue, and gives the inputs on which a replay falls short.
 */
module SmallParser {
  import opened Bytes
  import opened Callbacks
  import opened Prologue
  import opened Ring
  import opened Sink
  import opened Scanner
  import opened ReplayTheorems
  import opened SanitiserTheorems
  import opened RereadTheorems
  import opened SafeReplay

  const CAN: byte := 0x18
  const SUB: byte := 0x1a

  /** A text without control bytes and separators. */
  type Text = s: seq<byte> | CleanField(s)

  datatype Parser =
    | Ground
    | Escaped
    | Bracket
    | InSequence(private: bool, params: seq<seq<u16>>, n: u16)
    | InString(fields: seq<Text>)

  function SequenceStep(private: bool, params: seq<seq<u16>>, n: u16, b: byte): (Parser, seq<Callback>) {
    if b == ESC then (Escaped, [])
    else if b == CAN || b == SUB then (Ground, [Execute(b)])
    else if b < 0x20 then (InSequence(private, params, n), [Execute(b)])
    else if IsDigit(b) then (InSequence(private, params, Saturated(10 * n + (b - '0' as int))), [])
    else if b == SEMICOLON then (InSequence(private, params + [[n]], 0), [])
    else if 0x40 <= b <= 0x7e then (Ground, [Csi(params + [[n]], Mark(private), b)])
    else (Ground, [])
  }

  /**
   * A control string ends on BEL, on the ESC of its terminator, or on CAN and SUB, which are controls
   * themselves; other controls within a sequence are acted on and change no state.
   */
  function Step(p: Parser, b: byte): (Parser, seq<Callback>) {
    match p
    case Ground =>
      if b == ESC then (Escaped, []) else if b < 0x20 then (Ground, [Execute(b)]) else (Ground, [Print])
    case Escaped =>
      if b == ']' as int then (InString([[]]), [])
      else if b == '[' as int then (Bracket, [])
      else if b == ESC then (Escaped, [])
      else if b == CAN || b == SUB then (Ground, [Execute(b)])
      else if b < 0x20 then (Escaped, [Execute(b)])
      else if b < 0x30 then (Escaped, [])
      else (Ground, [Esc(b)])
    case Bracket =>
      if b == '?' as int then (InSequence(true, [], 0), []) else SequenceStep(false, [], 0, b)
    case InSequence(private, params, n) => SequenceStep(private, params, n, b)
    case InString(fields) =>
      if b == ESC then (Escaped, [Osc(fields)])
      else if b == CAN || b == SUB then (Ground, [Osc(fields)] + [Execute(b)])
      else if b == BEL then (Ground, [Osc(fields)])
      else if b < 0x20 || fields == [] then (InString(fields), [])
      else if b == SEMICOLON then (InString(fields + [[]]), [])
      else (InString(Init(fields) + [Last(fields) + [b]]), [])
  }

  lemma IsCleanAndSettled()
    ensures Clean(Step) && Settled(Step)
  {
    forall p: Parser, b: byte
      ensures CleanCallbacks(Step(p, b).1) && SettledCalls(Step(p, b).1)
    {
      if p.InString? && (b == CAN || b == SUB) {
        assert Last(Step(p, b).1) == Execute(b);
      }
    }
  }

  // ---------------------------------------------------- reading prologues

  lemma {:induction false} ReadsDecimal(private: bool, params: seq<seq<u16>>, n: u16)
    ensures Read(Step, InSequence(private, params, 0), Decimal(n)) == Reading(InSequence(private, params, n), [])
    decreases n
  {
    hide Read;
    var p := InSequence(private, params, 0);
    var d: byte := '0' as int + n % 10;
    NothingIsInPlace(Step, p);
    if n < 10 {
      ReadSnoc(Step, p, [], d);
      assert [] + [d] == Decimal(n);
    } else {
      ReadsDecimal(private, params, n / 10);
      ReadSnoc(Step, p, Decimal(n / 10), d);
    }
  }

  lemma {:induction false} ReadsJoined(private: bool, params: seq<seq<u16>>, ps: seq<u16>)
    requires ps != []
    ensures Read(Step, InSequence(private, params, 0), Joined(ps))
            == Reading(InSequence(private, params + Singletons(Init(ps)), Last(ps)), [])
    decreases |ps|
  {
    hide Read, Decimal;
    var p := InSequence(private, params, 0);
    ReadsDecimal(private, params, ps[0]);
    if |ps| == 1 {
      assert params + Singletons(Init(ps)) == params;
    } else {
      var head := Decimal(ps[0]) + [SEMICOLON];
      ReadSnoc(Step, p, Decimal(ps[0]), SEMICOLON);
      ReadsJoined(private, params + [[ps[0]]], ps[1..]);
      ReadConcat(Step, p, head, Joined(ps[1..]));
      assert Joined(ps) == head + Joined(ps[1..]);
      assert Init(ps) == [ps[0]] + Init(ps[1..]);
      assert params + Singletons(Init(ps)) == params + [[ps[0]]] + Singletons(Init(ps[1..]));
    }
  }

  /** After the bracket, anything but a question mark begins a plain sequence. */
  lemma BracketBeginsPlain(w: seq<byte>)
    requires w != [] && w[0] != '?' as int
    ensures Read(Step, Bracket, w) == Read(Step, InSequence(false, [], 0), w)
  {
    hide Read;
    var p := InSequence(false, [], 0);
    assert w == [w[0]] + w[1..] && [] + [w[0]] == [w[0]];
    NothingIsInPlace(Step, Bracket);
    NothingIsInPlace(Step, p);
    ReadSnoc(Step, Bracket, [], w[0]);
    ReadSnoc(Step, p, [], w[0]);
    ReadConcat(Step, Bracket, [w[0]], w[1..]);
    ReadConcat(Step, p, [w[0]], w[1..]);
  }

  lemma ReadsParams(private: bool, ps: seq<u16>, final: byte)
    requires 0x40 <= final <= 0x7e
    ensures Read(Step, InSequence(private, [], 0), Joined(ps) + [final])
            == Reading(Ground, [ControlCall(Sequence(private, ps, final))])
  {
    hide Read, Joined;
    var p := InSequence(private, [], 0);
    NothingIsInPlace(Step, p);
    ReadSnoc(Step, p, Joined(ps), final);
    if ps == [] {
      NoParamsReadBack(final, []);
      assert [] + [[0]] == [[0]];
    } else {
      ReadsJoined(private, [], ps);
      assert [] + Singletons(Init(ps)) + [[Last(ps)]] == Singletons(ps);
    }
  }

  lemma ReadsIntroducer()
    ensures Read(Step, Ground, CSI) == Reading(Bracket, [])
    ensures Read(Step, Ground, OSC) == Reading(InString([[]]), [])
    ensures Read(Step, Bracket, ['?' as int]) == Reading(InSequence(true, [], 0), [])
  {
    hide Read;
    NothingIsInPlace(Step, Ground);
    NothingIsInPlace(Step, Bracket);
    ReadSnoc(Step, Ground, [], ESC);
    assert [] + [ESC] == [ESC] && [ESC] + ['[' as int] == CSI && [ESC] + [']' as int] == OSC;
    ReadSnoc(Step, Ground, [ESC], '[' as int);
    ReadSnoc(Step, Ground, [ESC], ']' as int);
    ReadSnoc(Step, Bracket, [], '?' as int);
    assert [] + ['?' as int] == ['?' as int];
  }

  lemma ReadsSequence(private: bool, ps: seq<u16>, final: byte)
    requires 0x40 <= final <= 0x7e
    ensures var c := Sequence(private, ps, final);
            Read(Step, Ground, ControlText(c)) == Reading(Ground, [ControlCall(c)])
  {
    hide Read, ControlCall;
    var c, body := Sequence(private, ps, final), Joined(ps) + [final];
    ReadsIntroducer();
    ReadsParams(private, ps, final);
    if private {
      ReadConcat(Step, Bracket, ['?' as int], body);
    } else {
      if ps != [] {
        JoinedStartsWithDigit(ps);
        assert body[0] == Joined(ps)[0];
      } else {
        NoParamsReadBack(final, []);
      }
      BracketBeginsPlain(body);
      assert Mark(private) + body == body;
    }
    hide Joined;
    ReadConcat(Step, Ground, CSI, Mark(private) + body);
    assert ControlText(c) == CSI + (Mark(private) + body);
  }

  lemma {:induction false} ReadsText(fields: seq<Text>, text: Text)
    requires fields != []
    ensures Read(Step, InString(fields), text) == Reading(InString(Init(fields) + [Last(fields) + text]), [])
    decreases |text|
  {
    hide Read;
    NothingIsInPlace(Step, InString(fields));
    if text == [] {
      assert Last(fields) + text == Last(fields);
      assert Init(fields) + [Last(fields) + text] == fields;
    } else {
      var front, b := Init(text), Last(text);
      assert text == front + [b];
      ReadsText(fields, front);
      ReadSnoc(Step, InString(fields), front, b);
      assert Last(fields) + front + [b] == Last(fields) + text;
    }
  }

  /** One field's text, from its empty beginning. */
  lemma ReadsField(before: seq<Text>, text: Text)
    ensures Read(Step, InString(before + [[]]), text) == Reading(InString(before + [text]), [])
  {
    hide Read;
    var fields: seq<Text> := before + [[]];
    ReadsText(fields, text);
    assert [] + text == text && Init(fields) == before;
  }

  lemma ReadsStr(code: char, text: Text)
    requires '0' <= code <= '9'
    ensures Read(Step, Ground, OscText(code, Some(text))) == Reading(Ground, [Osc([[code as int], text])])
  {
    hide Read;
    var digit: Text := [code as int];
    var none: seq<Text> := [];
    var p := InString(none + [[]]);
    ReadsIntroducer();
    assert none + [[]] == [[]];
    ReadsField([], digit);
    ReadSnoc(Step, p, digit, SEMICOLON);
    assert [] + [digit] == [digit];
    var head := digit + [SEMICOLON];
    assert Read(Step, p, head) == Reading(InString([digit] + [[]]), []);
    ReadsField([digit], text);
    ReadConcat(Step, p, head, text);
    assert Read(Step, p, head + text) == Reading(InString([digit] + [text]), []);
    ReadSnoc(Step, p, head + text, BEL);
    assert [digit] + [text] == [[code as int], text];
    ReadConcat(Step, Ground, OSC, head + text + [BEL]);
    assert OscText(code, Some(text)) == OSC + (head + text + [BEL]);
  }

  lemma ReadsControl(c: Control)
    requires GoodControl(c)
    ensures Read(Step, Ground, ControlText(c)) == Reading(Ground, [ControlCall(c)])
  {
    match c {
      case Sequence(private, ps, final) => ReadsSequence(private, ps, final);
      case Str(code, text) => ReadsStr(code, text);
    }
  }

  lemma {:induction false} ReadsControls(cs: seq<Control>)
    requires forall c :: c in cs ==> GoodControl(c)
    ensures Read(Step, Ground, TextOf(cs)) == Reading(Ground, CallsOf(cs))
  {
    hide Read, ControlText, ControlCall, GoodControl;
    NothingIsInPlace(Step, Ground);
    if cs != [] {
      var front, c := Init(cs), Last(cs);
      assert c in cs;
      ReadsControls(front);
      ReadsControl(c);
      ReadConcat(Step, Ground, TextOf(front), ControlText(c));
      assert CallsOf(cs) == CallsOf(front) + [ControlCall(c)];
    }
  }

  /** It reads every prologue as what was printed, back to its initial state. */
  lemma ReadsAllPrologues()
    ensures ReadsPrologues(Step, Ground)
  {
    hide Read, Interpret, Serialized, CallsOf, TextOf, Controls, GoodControl;
    forall v: Visual | WellFormed(v)
      ensures ReadsPrologue(Step, Ground, Serialized(v)) && ReadsPrologue(Step, Ground, CLEAR_HOME + Serialized(v))
    {
      SerializedIsControls(v);
      ControlsAreGood(v);
      PrologueIsRead(v);
      assert forall c :: c in Controls(v) ==> c in CLEAR_CONTROLS + Controls(v);
      ReadsControls(Controls(v));
      ReadsControls(CLEAR_CONTROLS + Controls(v));
    }
  }

  /** With this parser the replayed bytes restore the live state on one condition only: the kept spans join up. */
  lemma {:induction false} ReplayRestores(input: seq<byte>, watermark: nat, want: nat)
    ensures var replay := ReplayOf(Rendered(Pieces(watermark, Segment(Step, Ground, input).spans)), want);
            JoinsUp(Step, Ground, input, Selected(Step, Ground, input, watermark, want).kept) ==>
              Segment(Step, Ground, replay).sink.visual == Segment(Step, Ground, input).sink.visual
  {
    hide Segment, KeptIn, JoinsUp, ReadsPrologue, ReadsPrologues, Clean, Settled;
    IsCleanAndSettled();
    ReadsAllPrologues();
    SelectedIsRead(Step, Ground, input, watermark, want);
    RereadRestores(Step, Ground, input, watermark, want);
  }

  /** Nor do they cause anything that the sink refuses, if no byte hid any. */
  lemma {:induction false} ReplayIsQuiet(input: seq<byte>, watermark: nat, want: nat)
    requires forall i :: 0 <= i < |input| ==> !Hides(Refused, CallsAt(Step, Ground, input, i))
    ensures var sel := Selected(Step, Ground, input, watermark, want);
            JoinsUp(Step, Ground, input, sel.kept) ==>
              !Holds(Refused, AllCalls(Step, Ground, sel.prologue + SpanBytes(sel.kept)))
  {
    hide Segment, Selected, JoinsUp, ReadsPrologue, ReadsPrologues, Clean, Settled, CallsAt, Refused;
    IsCleanAndSettled();
    ReadsAllPrologues();
    SelectedIsRead(Step, Ground, input, watermark, want);
    RereadHoldsNoneRefused(Step, Ground, input, watermark, want);
  }

  // ------------------------------------------- where a replay falls short

  lemma OneCallEach(p: Parser, b: byte, next: Parser, cb: Callback, bytes: seq<byte>)
    requires Step(p, b) == (next, [cb])
    ensures Read(Step, p, [b] + bytes) == Reading(Read(Step, next, bytes).parser, [cb] + Read(Step, next, bytes).calls)
  {
    hide Read, Step;
    NothingIsInPlace(Step, p);
    assert [] + [b] == [b];
    ReadSnoc(Step, p, [], b);
    ReadConcat(Step, p, [b], bytes);
    assert [] + [cb] == [cb];
  }

  /** The front of a control string is read without a callback. */
  lemma OpensString(code: Text)
    ensures Read(Step, Escaped, [']' as int] + code) == Reading(InString([code]), [])
    ensures Read(Step, Ground, OSC + code) == Reading(InString([code]), [])
  {
    assert Step(Escaped, ']' as int) == (InString([[]]), []);
    hide Read, Step;
    var none: seq<Text> := [];
    assert none + [[]] == [[]] && none + [code] == [code];
    ReadsIntroducer();
    ReadsField(none, code);
    NothingIsInPlace(Step, Escaped);
    ReadSnoc(Step, Escaped, [], ']' as int);
    assert [] + [']' as int] == [']' as int];
    ReadConcat(Step, Escaped, [']' as int], code);
    ReadConcat(Step, Ground, OSC, code);
  }

  /** No byte of the run completes a span, if the run reads without a callback. */
  lemma {:induction false} SilentStaysOpen(p: Parser, bytes: seq<byte>)
    requires Read(Step, p, bytes).calls == []
    ensures StaysOpen(Step, p, bytes)
    decreases |bytes|
  {
    if bytes != [] {
      var front := Init(bytes);
      SilentStaysOpen(p, front);
      hide Read, Step, Completes;
      assert bytes == front + [Last(bytes)];
      ReadSnoc(Step, p, front, Last(bytes));
      NoneCompletes();
      StaysOpenStep(Step, p, front, Last(bytes));
    }
  }

  lemma NoneCompletes()
    ensures !Completes([])
  {
  }

  /** A silent run and one more byte that completes a span, with no other span open. */
  lemma SilentThenSpan(x: seq<byte>, run: seq<byte>, b: byte)
    requires AtBoundary(Step, Ground, x) && Segment(Step, Ground, x).calls == []
    requires Read(Step, Read(Step, Ground, x).parser, run).calls == []
    requires Completes(Step(Read(Step, Read(Step, Ground, x).parser, run).parser, b).1)
    ensures var p := Read(Step, Ground, x).parser;
            var cbs := Step(Read(Step, p, run).parser, b).1;
            var spans, h := Segment(Step, Ground, x).spans, Segment(Step, Ground, x + (run + [b]));
            && h.pending == [] && h.calls == []
            && |h.spans| == |spans| + 1 && Init(h.spans) == spans
            && Last(h.spans).at == |x| && Last(h.spans).bytes == run + [b] && Last(h.spans).calls == cbs
            && Last(h.spans).event == Classify(PendingBehind(spans), cbs)
            && h.sink.visual == VisualFold(FRESH, AllCalls(Step, Ground, x) + cbs)
  {
    hide Read, Segment, Step, Completes, Classify, PendingBehind, VisualFold;
    var p := Read(Step, Ground, x).parser;
    SilentStaysOpen(p, run);
    StaysOpenStep(Step, p, run, b);
    OneSpanSegments(Step, Ground, x, run + [b]);
    ReadSnoc(Step, p, run, b);
    assert [] + Step(Read(Step, p, run).parser, b).1 == Step(Read(Step, p, run).parser, b).1;
    LastIsClassified(Step, Ground, x + (run + [b]));
    VisualOfRun(Step, Ground, x + (run + [b]));
    ReadConcat(Step, Ground, x, run + [b]);
    SpansAreInPlace(Step, Ground, x + (run + [b]));
    SpansConserveInput(Step, Ground, x);
    LastSpanPlace(x, run, b);
  }

  /** Where that span begins. */
  lemma LastSpanPlace(x: seq<byte>, run: seq<byte>, b: byte)
    requires AtBoundary(Step, Ground, x) && Segment(Step, Ground, x).calls == []
    requires StaysOpen(Step, Read(Step, Ground, x).parser, run)
    requires Completes(Step(Read(Step, Read(Step, Ground, x).parser, run).parser, b).1)
    ensures var spans := Segment(Step, Ground, x + (run + [b])).spans; spans != [] && Last(spans).at == |x|
  {
    hide Read, Segment, Step, Completes;
    OpenRunSegments(Step, Ground, x, run);
    SpansConserveInput(Step, Ground, x);
    SpansConserveInput(Step, Ground, x + run);
    SegmentSnoc(Step, Ground, x + run, b);
    ReadConcat(Step, Ground, x, run);
    assert x + (run + [b]) == x + run + [b];
  }

  lemma StartsAtBoundary()
    ensures AtBoundary(Step, Ground, [])
    ensures Segment(Step, Ground, []).calls == [] && Segment(Step, Ground, []).spans == []
    ensures Read(Step, Ground, []) == Reading(Ground, [])
  {
  }

  /** A control string closed by `ESC \`, up to the ESC. */
  const CLOSED: seq<byte> := OSC + [ESC]

  lemma ClosesString()
    ensures Step(InString([[]]), ESC) == (Escaped, [Osc([[]])])
    ensures Step(Escaped, BACKSLASH) == (Ground, [Esc(BACKSLASH)])
    ensures Classify(None, [Osc([[]])]) == KeepSeq && PendingAfter(Osc([[]])) == Some(KeepSeq)
    ensures Classify(Some(KeepSeq), [Esc(BACKSLASH)]) == KeepSeq
  {
  }

  /** By its ESC the string is a kept span, and the parser within an escape. */
  lemma StringIsCut()
    ensures Read(Step, Ground, CLOSED).parser == Escaped
    ensures var g := Segment(Step, Ground, CLOSED);
            && g.pending == [] && g.calls == [] && |g.spans| == 1
            && g.spans[0].bytes == CLOSED && g.spans[0].event == KeepSeq && g.spans[0].calls == [Osc([[]])]
  {
    hide Read, Segment, Step, Classify, VisualFold;
    var none: seq<byte> := [];
    var code: Text := [];
    ClosesString();
    StartsAtBoundary();
    OpensString(code);
    assert OSC + code == OSC && none + CLOSED == CLOSED;
    SilentThenSpan([], OSC, ESC);
    ReadSnoc(Step, Ground, OSC, ESC);
  }

  /** The backslash is the next span. */
  lemma TerminatorIsCut()
    ensures var spans := Segment(Step, Ground, CLOSED + [BACKSLASH]).spans;
            && |spans| == 2 && spans[0].bytes == CLOSED && spans[0].event == KeepSeq
            && spans[1].at == 3 && spans[1].bytes == [BACKSLASH] && spans[1].calls == [Esc(BACKSLASH)]
            && spans[1].event == KeepSeq
  {
    hide Read, Segment, Step, Classify, PendingAfter, VisualFold;
    var none: seq<byte> := [];
    ClosesString();
    StringIsCut();
    NothingIsInPlace(Step, Escaped);
    assert none + [BACKSLASH] == [BACKSLASH];
    SilentThenSpan(CLOSED, [], BACKSLASH);
  }

  /** Two spans in two chunks, or one of them dropped. */
  lemma PiecesOfTwo(watermark: nat, s1: Span, s2: Span)
    requires s2.event.Keeps() && |s2.bytes| < watermark
    ensures s1.event == KeepSeq && |s1.bytes| >= watermark ==>
              Pieces(watermark, [s1] + [s2]) == [Piece([], [s1]), Piece(Serialized(s1.after), [s2])]
    ensures s1.event == DropSeq ==> Pieces(watermark, [s1] + [s2]) == [Piece([], [s2])]
  {
    hide Serialized, SpanBytes, Pieces;
    StartsWithOnePiece(watermark);
    assert [] + [s1] == [s1] && [] + [s2] == [s2];
    OneSpanContents(s1);
    OneSpanContents(s2);
    PiecesSnoc(watermark, [], s1);
    PiecesSnoc(watermark, [s1], s2);
  }

  lemma StartsWithOnePiece(watermark: nat)
    ensures Pieces(watermark, []) == [Piece([], [])]
  {
  }

  lemma KeptInLast(ps: seq<Piece>)
    requires ps != []
    ensures KeptIn(ps[|ps| - 1..]) == Last(ps).kept
  {
    hide KeptIn;
    assert ps[|ps| - 1..] == [] + [Last(ps)];
    KeptInSnoc([], Last(ps));
    KeptInNothing();
  }

  /**
   * A cut can fall within a terminator. The last chunk then begins with the lone backslash, which a fresh
   * parser prints: the kept spans do not join up, and the chunk does not stand alone.
   */
  lemma CutSplitsTerminator()
    ensures var input := CLOSED + [BACKSLASH];
            var ps := Pieces(3, Segment(Step, Ground, input).spans);
            var kept := Selected(Step, Ground, input, 3, 1).kept;
            && |ps| == 2 && Rendered(ps)[1].data == SpanBytes(kept) == [BACKSLASH]
            && SpanCalls(kept) == [Esc(BACKSLASH)] && Read(Step, Ground, [BACKSLASH]).calls == [Print]
            && !JoinsUp(Step, Ground, input, kept)
  {
    hide Segment, Serialized, Read, KeptIn, SpanBytes, SpanCalls, Step, Pieces;
    var input := CLOSED + [BACKSLASH];
    StringIsCut();
    TerminatorIsCut();
    PrintsText([BACKSLASH]);
    var spans := Segment(Step, Ground, input).spans;
    assert spans == [spans[0]] + [spans[1]];
    PiecesOfTwo(3, spans[0], spans[1]);
    KeptInLast(Pieces(3, spans));
    OneSpanContents(spans[1]);
    assert input[..3] == CLOSED;
    assert Behind(Step, Ground, input, [spans[1]], 0) == Ground;
    assert Entry(Step, Ground, input, spans[1]) == Escaped;
  }

  /** A title, set right behind a bell within its escape. */
  const TITLE_TEXT: Text := ['x' as int]
  const TITLE_CALL := Osc([CODE_TITLE, ['x' as int]])
  const TITLE_BODY: seq<byte> := [']' as int, '2' as int, SEMICOLON] + TITLE_TEXT

  /** The separator behind a field begins the next one. */
  lemma SeparatesField(p: Parser, bytes: seq<byte>, code: Text)
    requires Read(Step, p, bytes) == Reading(InString([code]), [])
    ensures Read(Step, p, bytes + [SEMICOLON]) == Reading(InString([code] + [[]]), [])
  {
    assert Step(InString([code]), SEMICOLON) == (InString([code] + [[]]), []);
    hide Read, Step;
    ReadSnoc(Step, p, bytes, SEMICOLON);
  }

  lemma OpensTitle()
    ensures Read(Step, Escaped, TITLE_BODY) == Reading(InString([['2' as int], TITLE_TEXT]), [])
    ensures Read(Step, Ground, OSC + ['2' as int, SEMICOLON]) == Reading(InString([['2' as int], []]), [])
  {
    hide Read, Step;
    var code: Text := ['2' as int];
    var one: seq<Text> := [code];
    var front := [']' as int] + code;
    OpensString(code);
    SeparatesField(Escaped, front, code);
    SeparatesField(Ground, OSC + code, code);
    assert one + [[]] == [code, []] && one + [TITLE_TEXT] == [code, TITLE_TEXT];
    assert OSC + code + [SEMICOLON] == OSC + ['2' as int, SEMICOLON];
    ReadsField(one, TITLE_TEXT);
    ReadConcat(Step, Escaped, front + [SEMICOLON], TITLE_TEXT);
    assert front + [SEMICOLON] + TITLE_TEXT == TITLE_BODY;
  }

  /** What its terminating bell and a bell within an escape cause. */
  lemma BellSteps()
    ensures Step(InString([['2' as int], TITLE_TEXT]), BEL) == (Ground, [TITLE_CALL])
    ensures Step(Ground, ESC) == (Escaped, []) && Step(Escaped, BEL) == (Escaped, [Execute(BEL)])
    ensures Classify(None, [Execute(BEL)]) == DropSeq
    ensures forall p :: Classify(p, [TITLE_CALL]) == KeepSeq
  {
  }

  lemma BellWithinEscape()
    ensures Read(Step, Ground, [ESC]) == Reading(Escaped, [])
    ensures Read(Step, Ground, [ESC] + [BEL]) == Reading(Escaped, [Execute(BEL)])
  {
    hide Read, Step, Classify;
    BellSteps();
    StartsAtBoundary();
    ReadSnoc(Step, Ground, [], ESC);
    assert [] + [ESC] == [ESC];
    ReadSnoc(Step, Ground, [ESC], BEL);
    assert [] + [Execute(BEL)] == [Execute(BEL)];
  }

  /** The bell drops the ESC with it; the rest is kept, and tracked as the title that it sets. */
  lemma BellDropsEscape()
    ensures var g := Segment(Step, Ground, [ESC] + [BEL] + (TITLE_BODY + [BEL]));
            && |g.spans| == 2 && g.spans[0].event == DropSeq
            && g.spans[1].at == 2 && g.spans[1].bytes == TITLE_BODY + [BEL] && g.spans[1].event == KeepSeq
            && g.sink.visual == VisualFold(FRESH, [Execute(BEL)] + [TITLE_CALL])
  {
    hide Read, Segment, Step, VisualFold, Classify, PendingBehind;
    var none: seq<byte> := [];
    var x := [ESC] + [BEL];
    BellSteps();
    BellWithinEscape();
    StartsAtBoundary();
    NothingClassified();
    assert none + x == x;
    SilentThenSpan([], [ESC], BEL);
    OpensTitle();
    SilentThenSpan(x, TITLE_BODY, BEL);
  }

  lemma {:induction false} PrintsText(text: seq<byte>)
    requires forall i :: 0 <= i < |text| ==> text[i] >= 0x20
    ensures Read(Step, Ground, text) == Reading(Ground, seq(|text|, _ => Print))
    decreases |text|
  {
    if text != [] {
      var front := Init(text);
      PrintsText(front);
      ReadSnoc(Step, Ground, front, Last(text));
      assert text == front + [Last(text)];
      hide Read;
      assert seq(|text|, _ => Print) == seq(|front|, _ => Print) + [Print];
    }
  }

  /** Text and then a bell, read at ground, are prints and a bell; they change no tracked state. */
  lemma TextAndBellChangeNothing(text: seq<byte>)
    requires forall i :: 0 <= i < |text| ==> text[i] >= 0x20
    ensures AllCalls(Step, Ground, text + [BEL]) == seq(|text|, _ => Print) + [Execute(BEL)]
    ensures Segment(Step, Ground, text + [BEL]).sink.visual == FRESH
  {
    hide Read, Segment, VisualFold;
    PrintsText(text);
    ReadSnoc(Step, Ground, text, BEL);
    VisualOfRun(Step, Ground, text + [BEL]);
    var calls := seq(|text|, _ => Print) + [Execute(BEL)];
    assert AllCalls(Step, Ground, text + [BEL]) == calls;
    UntrackedChangesNothing(FRESH, calls);
  }

  lemma TitleFold(v: Visual)
    ensures VisualFold(v, [TITLE_CALL]) == v.(title := Some(TITLE_TEXT))
    ensures VisualFold(FRESH, [Execute(BEL)] + [TITLE_CALL]) == FRESH.(title := Some(TITLE_TEXT))
  {
    FoldOne(v, TITLE_CALL);
    FoldOne(FRESH, TITLE_CALL);
    FoldOne(FRESH, Execute(BEL));
    VisualFoldConcat(FRESH, [Execute(BEL)], [TITLE_CALL]);
    hide VisualFold;
  }

  /**
   * A dropped span can take the front of a sequence with it. The scanner tracks the title, but even a full
   * replay shows its bytes as text, rings the bell that closes it, and restores no title.
   */
  lemma BellLosesTitle(watermark: nat)
    requires watermark > 5
    ensures var input := [ESC] + [BEL] + (TITLE_BODY + [BEL]);
            var sel := Selected(Step, Ground, input, watermark, 1);
            && sel.prologue == [] && SpanBytes(sel.kept) == TITLE_BODY + [BEL]
            && Segment(Step, Ground, input).sink.visual.title == Some(TITLE_TEXT)
            && Segment(Step, Ground, SpanBytes(sel.kept)).sink.visual == FRESH
            && AllCalls(Step, Ground, SpanBytes(sel.kept)) == seq(4, _ => Print) + [Execute(BEL)]
            && Holds(Rings, AllCalls(Step, Ground, SpanBytes(sel.kept)))
            && !JoinsUp(Step, Ground, input, sel.kept)
  {
    hide Segment, Serialized, Read, KeptIn, SpanBytes, SpanCalls, Step, VisualFold, Pieces;
    var input := [ESC] + [BEL] + (TITLE_BODY + [BEL]);
    BellDropsEscape();
    BellWithinEscape();
    TitleFold(FRESH);
    TextAndBellChangeNothing(TITLE_BODY);
    var calls := AllCalls(Step, Ground, TITLE_BODY + [BEL]);
    assert |TITLE_BODY| == 4 && Rings(calls[4]);
    var spans := Segment(Step, Ground, input).spans;
    assert spans == [spans[0]] + [spans[1]];
    PiecesOfTwo(watermark, spans[0], spans[1]);
    KeptInLast(Pieces(watermark, spans));
    OneSpanContents(spans[1]);
    assert input[..2] == [ESC] + [BEL];
    assert Behind(Step, Ground, input, [spans[1]], 0) == Ground;
    assert Entry(Step, Ground, input, spans[1]) == Escaped;
  }

  /** A clipboard write, cut short by CAN. */
  const CANCELLED: seq<byte> := OSC + CODE_CLIPBOARD + [CAN]

  /** It is kept, and read again, though refused by itself: CAN is reported behind it by the same byte. */
  lemma ClipboardSurvivesCancel()
    ensures var spans := Segment(Step, Ground, CANCELLED).spans;
            && |spans| == 1 && spans[0].bytes == CANCELLED && spans[0].event == KeepSeq
            && spans[0].calls == [Osc([CODE_CLIPBOARD])] + [Execute(CAN)]
            && Holds(SetsClipboard, spans[0].calls) && Holds(Refused, spans[0].calls)
    ensures Read(Step, Ground, CANCELLED).calls == [Osc([CODE_CLIPBOARD])] + [Execute(CAN)]
  {
    hide Read, Segment, Step, Classify, SetsClipboard, Refused, VisualFold, PendingBehind;
    var none: seq<byte> := [];
    var code: Text := CODE_CLIPBOARD;
    var cbs := [Osc([CODE_CLIPBOARD])] + [Execute(CAN)];
    CancelIsKept();
    StartsAtBoundary();
    NothingClassified();
    OpensString(code);
    ReadSnoc(Step, Ground, OSC + code, CAN);
    assert none + CANCELLED == CANCELLED && [] + cbs == cbs;
    SilentThenSpan([], OSC + code, CAN);
    assert cbs[0] == Osc([CODE_CLIPBOARD]);
    assert Holds(SetsClipboard, cbs) && Holds(Refused, cbs);
  }

  lemma CancelIsKept()
    ensures Step(InString([CODE_CLIPBOARD]), CAN) == (Ground, [Osc([CODE_CLIPBOARD])] + [Execute(CAN)])
    ensures Classify(None, [Osc([CODE_CLIPBOARD])] + [Execute(CAN)]) == KeepSeq
    ensures SetsClipboard(Osc([CODE_CLIPBOARD])) && Refused(Osc([CODE_CLIPBOARD]))
  {
  }

  /** A query for the background colour. */
  const QUESTION: Text := ['?' as int]
  const COLOUR_QUERY: seq<byte> := OSC + CODE_BACKGROUND + [SEMICOLON] + QUESTION + [BEL]
  const COLOUR_CALL := Osc([CODE_BACKGROUND, ['?' as int]])

  lemma ReadsColourQuery()
    ensures Read(Step, Ground, OSC + CODE_BACKGROUND + [SEMICOLON] + QUESTION)
            == Reading(InString([CODE_BACKGROUND, QUESTION]), [])
  {
    hide Read, Step;
    var code: Text := CODE_BACKGROUND;
    var one: seq<Text> := [code];
    OpensString(code);
    SeparatesField(Ground, OSC + code, code);
    assert one + [QUESTION] == [code, QUESTION];
    ReadsField(one, QUESTION);
    ReadConcat(Step, Ground, OSC + code + [SEMICOLON], QUESTION);
  }

  lemma AsksOnBell()
    ensures Step(InString([CODE_BACKGROUND, QUESTION]), BEL) == (Ground, [COLOUR_CALL])
    ensures Classify(None, [COLOUR_CALL]) == KeepSeq
  {
  }

  /** It is one kept span, with one callback: the sink does not refuse it, and a replay asks again. */
  lemma ColourQueryIsKept()
    ensures var spans := Segment(Step, Ground, COLOUR_QUERY).spans;
            && |spans| == 1 && spans[0].bytes == COLOUR_QUERY && spans[0].event == KeepSeq
            && spans[0].calls == [COLOUR_CALL] && Holds(Queries, spans[0].calls) && !Holds(Refused, spans[0].calls)
    ensures Read(Step, Ground, COLOUR_QUERY).calls == [COLOUR_CALL]
  {
    var none: seq<byte> := [];
    var run := OSC + CODE_BACKGROUND + [SEMICOLON] + QUESTION;
    assert [CODE_BACKGROUND, ['?' as int]][1..] == [['?' as int]];
    assert Queries(COLOUR_CALL) && !Refused(COLOUR_CALL);
    hide Read, Segment, Step, Classify, Queries, Refused, VisualFold, PendingBehind;
    StartsAtBoundary();
    NothingClassified();
    ReadsColourQuery();
    AsksOnBell();
    ReadSnoc(Step, Ground, run, BEL);
    assert none + COLOUR_QUERY == COLOUR_QUERY && [] + [COLOUR_CALL] == [COLOUR_CALL];
    SilentThenSpan([], run, BEL);
    assert [COLOUR_CALL][0] == COLOUR_CALL;
  }

  /** A designation of the line-drawing set, and a character of it. */
  const DRAWING: seq<byte> := [ESC, '(' as int] + ['0' as int]

  lemma ReadsDrawing()
    ensures Read(Step, Ground, [ESC, '(' as int]) == Reading(Escaped, [])
    ensures Read(Step, Ground, DRAWING) == Reading(Ground, [Esc('0' as int)])
  {
    StartsAtBoundary();
    ReadSnoc(Step, Ground, [], ESC);
    assert [] + [ESC] == [ESC] && [ESC] + ['(' as int] == [ESC, '(' as int];
    ReadSnoc(Step, Ground, [ESC], '(' as int);
    ReadSnoc(Step, Ground, [ESC, '(' as int], '0' as int);
    assert [] + [Esc('0' as int)] == [Esc('0' as int)];
  }

  lemma DrawingIsCut()
    ensures var spans := Segment(Step, Ground, DRAWING + ['q' as int]).spans;
            && |spans| == 2 && spans[0].bytes == DRAWING && spans[0].event == KeepSeq && spans[0].after == FRESH
            && spans[1].bytes == ['q' as int] && spans[1].calls == [Print] && spans[1].event == KeepByte
  {
    hide Read, Segment, Step, Classify, VisualFold, PendingBehind;
    var none: seq<byte> := [];
    StartsAtBoundary();
    NothingClassified();
    ReadsDrawing();
    DrawingSteps();
    assert none + DRAWING == DRAWING && [] + [Esc('0' as int)] == [Esc('0' as int)];
    SilentThenSpan([], [ESC, '(' as int], '0' as int);
    LastAfter(DRAWING);
    SilentThenSpanOfPrint();
  }

  lemma DrawingSteps()
    ensures Step(Escaped, '0' as int) == (Ground, [Esc('0' as int)])
    ensures Classify(None, [Esc('0' as int)]) == KeepSeq && forall p :: Classify(p, [Print]) == KeepByte
    ensures VisualFold(FRESH, [Esc('0' as int)]) == FRESH
  {
    FoldOne(FRESH, Esc('0' as int));
  }

  /** The state recorded with the last span is the one behind it. */
  lemma LastAfter(x: seq<byte>)
    requires Segment(Step, Ground, x).spans != [] && Segment(Step, Ground, x).pending == []
    ensures Last(Segment(Step, Ground, x).spans).after == Segment(Step, Ground, x).sink.visual
  {
    var front := Init(x);
    SpansConserveInput(Step, Ground, front);
    hide SinkFold;
  }

  lemma SilentThenSpanOfPrint()
    requires Read(Step, Ground, DRAWING).parser == Ground
    requires AtBoundary(Step, Ground, DRAWING) && Segment(Step, Ground, DRAWING).calls == []
    ensures var spans, h := Segment(Step, Ground, DRAWING).spans, Segment(Step, Ground, DRAWING + ['q' as int]);
            && |h.spans| == |spans| + 1 && Init(h.spans) == spans
            && Last(h.spans).bytes == ['q' as int] && Last(h.spans).calls == [Print]
            && Last(h.spans).event == Classify(PendingBehind(spans), [Print])
  {
    var none: seq<byte> := [];
    NothingIsInPlace(Step, Ground);
    assert Step(Ground, 'q' as int) == (Ground, [Print]);
    assert none + ['q' as int] == ['q' as int];
    hide Read, Segment, Step, Classify, PendingBehind, VisualFold;
    SilentThenSpan(DRAWING, [], 'q' as int);
  }

  /** Cut behind the designation, a replay of the last chunk draws no line: neither prologue nor data designates. */
  lemma CutLosesCharset()
    ensures var sel := Selected(Step, Ground, DRAWING + ['q' as int], 3, 1);
            sel.prologue == Serialized(FRESH) && SpanCalls(sel.kept) == [Print]
    ensures AllCalls(Step, Ground, DRAWING + ['q' as int]) == [Esc('0' as int)] + [Print]
  {
    hide Segment, Serialized, Read, KeptIn, SpanBytes, SpanCalls, Step, Pieces;
    DrawingIsCut();
    ReadsDrawing();
    PrintsText(['q' as int]);
    ReadConcat(Step, Ground, DRAWING, ['q' as int]);
    assert seq(1, _ => Print) == [Print];
    var spans := Segment(Step, Ground, DRAWING + ['q' as int]).spans;
    assert spans == [spans[0]] + [spans[1]];
    PiecesOfTwo(3, spans[0], spans[1]);
    KeptInLast(Pieces(3, spans));
    OneSpanContents(spans[1]);
  }

  /**
   * Pending bytes are lost at the seam: an attach within a title's control string replays nothing, and the
   * string's rest, live, is text and a bell to the client, while the scanner tracks the title.
   */
  lemma SeamLosesPending(watermark: nat)
    requires watermark > 0
    ensures var parsed := OSC + ['2' as int, SEMICOLON];
            var live := TITLE_TEXT + [BEL];
            var g := Segment(Step, Ground, parsed);
            var replay := ReplayOf(Rendered(Pieces(watermark, g.spans)), 1);
            && g.pending == parsed && replay == []
            && Segment(Step, Ground, replay + live).sink.visual == FRESH
            && Segment(Step, Ground, parsed + live).sink.visual.title == Some(TITLE_TEXT)
  {
    hide Segment, Read, Step, VisualFold, Pieces;
    var parsed := OSC + ['2' as int, SEMICOLON];
    var live := TITLE_TEXT + [BEL];
    var none: seq<byte> := [];
    StartsAtBoundary();
    OpensTitle();
    SilentStaysOpen(Ground, parsed);
    assert none + parsed == parsed && none + live == live;
    OpenRunSegments(Step, Ground, [], parsed);
    TextAndBellChangeNothing(TITLE_TEXT);
    TitleIsRead();
    VisualOfRun(Step, Ground, parsed + live);
    TitleFold(FRESH);
    NothingReplayed(watermark);
  }

  lemma TitleIsRead()
    ensures Read(Step, Ground, OSC + ['2' as int, SEMICOLON] + (TITLE_TEXT + [BEL])).calls == [TITLE_CALL]
  {
    var code: Text := ['2' as int];
    ReadsStr('2', TITLE_TEXT);
    assert OSC + ['2' as int, SEMICOLON] + (TITLE_TEXT + [BEL]) == OscText('2', Some(TITLE_TEXT));
  }

  lemma NothingReplayed(watermark: nat)
    ensures ReplayOf(Rendered(Pieces(watermark, [])), 1) == []
  {
    ReplayIsKeptSpans(Pieces(watermark, []), 1);
    KeptInSnoc([], Piece([], []));
    KeptInNothing();
    NoSpans();
    assert Pieces(watermark, [])[0..] == [] + [Piece([], [])];
  }

  // ------------------------------------------------------ what erases

  const OLD: seq<byte> := ['a' as int]
  const NEW: seq<byte> := ['b' as int]
  const ERASE_ALL: seq<byte> := CSI + ['2' as int] + ['J' as int]
  const ERASE_BELOW: seq<byte> := CSI + ['J' as int]

  function EraseCall(n: u16): Callback {
    Csi([[n]], [], 'J' as int)
  }

  lemma EraseSteps()
    ensures Step(InSequence(false, [], 2), 'J' as int) == (Ground, [EraseCall(2)])
    ensures Step(Bracket, 'J' as int) == (Ground, [EraseCall(0)])
    ensures Step(Ground, 'a' as int) == (Ground, [Print]) && Step(Ground, 'b' as int) == (Ground, [Print])
    ensures forall p: Option<SegEvent> ::
              && Classify(p, [Print]) == KeepByte
              && Classify(p, [EraseCall(2)]) == ClearSeq && Classify(p, [EraseCall(0)]) == KeepSeq
  {
    var none: seq<seq<u16>> := [];
    assert none + [[2]] == [[2]] && none + [[0]] == [[0]];
  }

  lemma ReadsErase()
    ensures Read(Step, Ground, CSI) == Reading(Bracket, [])
    ensures Read(Step, Ground, CSI + ['2' as int]) == Reading(InSequence(false, [], 2), [])
  {
    assert Step(Bracket, '2' as int) == (InSequence(false, [], 2), []);
    hide Read, Step;
    ReadsIntroducer();
    ReadSnoc(Step, Ground, CSI, '2' as int);
  }

  /** A printed character is a span by itself, with nothing pending behind it. */
  lemma PrintedSpan(x: seq<byte>, b: byte)
    requires AtBoundary(Step, Ground, x) && Segment(Step, Ground, x).calls == []
    requires Read(Step, Ground, x).parser == Ground && Step(Ground, b) == (Ground, [Print])
    ensures var spans, h := Segment(Step, Ground, x).spans, Segment(Step, Ground, x + [b]);
            && h.pending == [] && h.calls == [] && Read(Step, Ground, x + [b]).parser == Ground
            && |h.spans| == |spans| + 1 && Init(h.spans) == spans
            && Last(h.spans).bytes == [b] && Last(h.spans).event == KeepByte
  {
    EraseSteps();
    hide Read, Segment, Step, Classify, PendingBehind, VisualFold;
    var none: seq<byte> := [];
    NothingIsInPlace(Step, Ground);
    assert none + [b] == [b];
    SilentThenSpan(x, [], b);
    ReadSnoc(Step, Ground, x, b);
  }

  /** The old text, an erasure, and the new text: three spans, of which the middle one is as it is classified. */
  lemma ErasureSpans(run: seq<byte>, erase: Callback)
    requires Read(Step, Ground, run).calls == []
    requires Step(Read(Step, Ground, run).parser, 'J' as int) == (Ground, [erase])
    requires erase.Csi? && forall p, q :: Classify(p, [erase]) == Classify(q, [erase])
    ensures var spans := Segment(Step, Ground, OLD + (run + ['J' as int]) + NEW).spans;
            && |spans| == 3
            && spans[0].bytes == OLD && spans[0].event == KeepByte
            && spans[1].bytes == run + ['J' as int] && spans[1].event == Classify(None, [erase])
            && spans[2].bytes == NEW && spans[2].event == KeepByte
            && spans[1].after == VisualFold(FRESH, [Print] + [erase])
  {
    hide Read, Segment, Step, Classify, PendingBehind, VisualFold;
    var none: seq<byte> := [];
    var x := OLD + (run + ['J' as int]);
    EraseSteps();
    StartsAtBoundary();
    assert none + OLD == OLD;
    PrintedSpan([], 'a' as int);
    SilentThenSpan(OLD, run, 'J' as int);
    ReadSnoc(Step, Ground, run, 'J' as int);
    ReadConcat(Step, Ground, OLD, run + ['J' as int]);
    PrintsText(OLD);
    assert seq(1, _ => Print) == [Print];
    LastAfter(x);
    PrintedSpan(x, 'b' as int);
  }

  lemma EraseFolds(n: u16)
    ensures VisualFold(FRESH, [Print] + [EraseCall(n)]) == FRESH
  {
    FoldOne(FRESH, Print);
    FoldOne(FRESH, EraseCall(n));
    VisualFoldConcat(FRESH, [Print], [EraseCall(n)]);
  }

  /** Erasing the whole display drops what was shown: a replay erases, homes, and shows the new text only. */
  lemma EraseAllStartsOver(watermark: nat, want: nat)
    requires var spans := Segment(Step, Ground, OLD + ERASE_ALL + NEW).spans; want >= |Pieces(watermark, spans)|
    ensures var spans := Segment(Step, Ground, OLD + ERASE_ALL + NEW).spans;
            ReplayOf(Rendered(Pieces(watermark, spans)), want)
            == [ESC, '[' as int, '2' as int, 'J' as int, ESC, '[' as int, 'H' as int] + Serialized(FRESH) + NEW
  {
    hide Read, Segment, Step, Classify, VisualFold, Pieces, Serialized;
    ReadsErase();
    EraseSteps();
    EraseFolds(2);
    ErasureSpans(CSI + ['2' as int], EraseCall(2));
    var spans := Segment(Step, Ground, OLD + ERASE_ALL + NEW).spans;
    assert spans == [spans[0]] + [spans[1]] + [spans[2]];
    FullReplayHidesCuts(watermark, spans, want);
    ClearedSpans(spans[0], spans[1], spans[2]);
    OneSpanContents(spans[2]);
  }

  lemma ClearedSpans(s0: Span, s1: Span, s2: Span)
    requires s1.event == ClearSeq && s2.event == KeepByte
    ensures Since([s0] + [s1] + [s2]) == [s2] && Base([s0] + [s1] + [s2]) == CLEAR_HOME + Serialized(s1.after)
  {
    var spans := [s0] + [s1] + [s2];
    assert Init(spans) == [s0] + [s1] && Last(spans) == s2 && Last(Init(spans)) == s1;
    hide Serialized;
  }

  lemma KeptSpans(s0: Span, s1: Span, s2: Span)
    requires s0.event.Keeps() && s1.event.Keeps() && s2.event.Keeps()
    ensures Since([s0] + [s1] + [s2]) == [s0] + [s1] + [s2] && Base([s0] + [s1] + [s2]) == []
  {
    var spans := [s0] + [s1] + [s2];
    assert Init(spans) == [s0] + [s1] && Last(spans) == s2;
    assert Init([s0] + [s1]) == [s0] && Last([s0] + [s1]) == s1 && Init([s0]) == [] && Last([s0]) == s0;
    assert Since([]) == [] && Base([]) == [];
    assert Since([s0]) == [] + [s0] && Base([s0]) == [];
    assert Since([s0] + [s1]) == [s0] + [s1] && Base([s0] + [s1]) == [];
  }

  /** Erasing below drops nothing: a replay is the whole output, as it was. */
  lemma EraseBelowKeeps(watermark: nat, want: nat)
    requires var spans := Segment(Step, Ground, OLD + ERASE_BELOW + NEW).spans; want >= |Pieces(watermark, spans)|
    ensures var spans := Segment(Step, Ground, OLD + ERASE_BELOW + NEW).spans;
            ReplayOf(Rendered(Pieces(watermark, spans)), want) == OLD + ERASE_BELOW + NEW
  {
    hide Read, Segment, Step, Classify, VisualFold, Pieces, SpanBytes;
    ReadsErase();
    EraseSteps();
    ErasureSpans(CSI, EraseCall(0));
    var spans := Segment(Step, Ground, OLD + ERASE_BELOW + NEW).spans;
    assert spans == [spans[0]] + [spans[1]] + [spans[2]];
    FullReplayHidesCuts(watermark, spans, want);
    KeptSpans(spans[0], spans[1], spans[2]);
    SpansConcat([spans[0]] + [spans[1]], [spans[2]]);
    SpansConcat([spans[0]], [spans[1]]);
    OneSpanContents(spans[0]);
    OneSpanContents(spans[1]);
    OneSpanContents(spans[2]);
  }
}
