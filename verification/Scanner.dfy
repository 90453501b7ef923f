/**
 * The scanner: raw terminal bytes in, a chunked and sanitised replay out. The parser is any
 * deterministic step that turns one byte into callbacks.
 */
module Scanner {
  import opened Bytes
  import opened Callbacks
  import opened Prologue
  import opened Ring
  import opened Sink
  import T = Translate

  /** One parser step: the next state, and the callbacks that the byte causes. */
  type ParserStep<!P> = (P, byte) -> (P, seq<Callback>)

  // ------------------------------------------- the stream cut into spans

  /**
   * A completed span: where it begins in the parsed bytes, its bytes, the callbacks they caused, its
   * classification, and the visual state behind it.
   */
  datatype Span = Span(at: nat, bytes: seq<byte>, calls: seq<Callback>, event: SegEvent, after: Visual)

  /** Parser and sink after some input, the spans completed so far, and the open span. */
  datatype Segmented<P> = Segmented(
    parser: P, sink: SinkState, spans: seq<Span>, at: nat, pending: seq<byte>, calls: seq<Callback>)

  function SegmentStep<P>(step: ParserStep<P>, g: Segmented<P>, b: byte): Segmented<P> {
    var (parser, cbs) := step(g.parser, b);
    var sink := SinkFold(g.sink, cbs);
    var pending, calls := g.pending + [b], g.calls + cbs;
    var rest := sink.(event := Nothing);
    if sink.event.Nothing? then Segmented(parser, rest, g.spans, g.at, pending, calls)
    else
      var s := Span(g.at, pending, calls, sink.event, sink.visual);
      Segmented(parser, rest, g.spans + [s], g.at + |pending|, [], [])
  }

  function Segment<P>(step: ParserStep<P>, start: P, input: seq<byte>): Segmented<P> {
    if input == [] then Segmented(start, FRESH_SINK, [], 0, [], [])
    else SegmentStep(step, Segment(step, start, Init(input)), Last(input))
  }

  function SpanBytes(spans: seq<Span>): seq<byte> {
    Gather((s: Span) => s.bytes, spans)
  }

  function SpanCalls(spans: seq<Span>): seq<Callback> {
    Gather((s: Span) => s.calls, spans)
  }

  // ------------------------------------------------ the spans in chunks

  /** A chunk together with the spans kept in it. */
  datatype Piece = Piece(prologue: seq<byte>, kept: seq<Span>)

  function PieceStep(watermark: nat, ps: seq<Piece>, s: Span): (r: seq<Piece>)
    requires ps != []
    ensures r != []
    ensures s.event.Nothing? ==> r == ps
  {
    match s.event
    case ClearSeq => [Piece(CLEAR_HOME + Serialized(s.after), [])]
    case DropSeq => ps
    case Nothing => ps
    case _ =>
      var open := Piece(Last(ps).prologue, Last(ps).kept + [s]);
      var grown := Init(ps) + [open];
      if |SpanBytes(open.kept)| >= watermark then grown + [Piece(Serialized(s.after), [])] else grown
  }

  function Pieces(watermark: nat, spans: seq<Span>): (ps: seq<Piece>)
    ensures ps != []
  {
    if spans == [] then [Piece([], [])] else PieceStep(watermark, Pieces(watermark, Init(spans)), Last(spans))
  }

  function Rendered(ps: seq<Piece>): (chunks: seq<Chunk>)
    ensures |chunks| == |ps|
  {
    seq(|ps|, i requires 0 <= i < |ps| => Chunk(ps[i].prologue, SpanBytes(ps[i].kept)))
  }

  // ------------------------------------------ the scanner, as functions

  /** The shell status after all these bytes. */
  function StatusOf<P>(step: ParserStep<P>, start: P, raw: seq<byte>): Status {
    Segment(step, start, T.Translated(raw).out).sink.status
  }

  /** A replay of `want` chunks after all these bytes. */
  function ReplayedBytes<P>(step: ParserStep<P>, start: P, watermark: nat, raw: seq<byte>, want: nat): seq<byte> {
    ReplayOf(Rendered(Pieces(watermark, Segment(step, start, T.Translated(raw).out).spans)), want)
  }

  // ------------------------------------------------------------- the code

  class Scanner<!P> {
    const step: ParserStep<P>
    const start: P
    const sink: Sink
    const ring: ChunkRing
    var parser: P
    var pending: seq<byte>
    var utf8Remaining: nat

    /** Every byte ever fed, and every byte ever passed on to the parser. */
    ghost var raw: seq<byte>
    ghost var parsed: seq<byte>

    ghost predicate Tracks()
      reads this`parser, this`pending, this`parsed, sink, sink.sticky, ring
    {
      var g := Segment(step, start, parsed);
      && sink.Valid()
      && parser == g.parser && sink.State() == g.sink && pending == g.pending
      && ring.chunks == Rendered(Pieces(ring.watermark, g.spans))
    }

    /** The scanner's whole state is a function of the bytes fed to it. */
    ghost predicate Valid()
      reads this, sink, sink.sticky, ring
    {
      Tracks() && T.Progress(parsed, utf8Remaining) == T.Translated(raw)
    }

    constructor (step: ParserStep<P>, start: P, watermark: nat)
      ensures Valid() && raw == []
      ensures this.step == step && this.start == start && ring.watermark == watermark
      ensures fresh(sink) && fresh(sink.sticky) && fresh(ring)
    {
      this.step, this.start, parser := step, start, start;
      sink := new Sink();
      ring := new ChunkRing(watermark);
      pending, utf8Remaining := [], 0;
      raw, parsed := [], [];
      new;
      RenderedSingle([]);
    }

    method Feed(bytes: seq<byte>)
      requires Valid()
      modifies this, sink, sink.sticky, ring
      ensures Valid() && raw == old(raw) + bytes
    {
      hide Scanner.Valid;
      ghost var before := raw;
      for i := 0 to |bytes|
        modifies this, sink, sink.sticky, ring
        invariant Valid() && raw == before + bytes[..i]
      {
        assert bytes[..i + 1] == bytes[..i] + [bytes[i]];
        FeedOne(bytes[i]);
      }
      assert bytes[..|bytes|] == bytes;
    }

    /** One raw byte: tell a UTF-8 continuation byte from a lone 0x9C. */
    method FeedOne(b: byte)
      requires Valid()
      modifies this, sink, sink.sticky, ring
      ensures Valid() && raw == old(raw) + [b]
    {
      hide Scanner.Tracks;
      assert Init(raw + [b]) == raw;
      raw := raw + [b];
      if utf8Remaining > 0 {
        if 0x80 <= b <= 0xbf {
          // Owed to the last lead: not a control, whatever its value.
          utf8Remaining := utf8Remaining - 1;
          AdvanceOne(b);
          return;
        }
        utf8Remaining := 0;
      }
      utf8Remaining :=
        if 0xc2 <= b <= 0xdf then 1
        else if 0xe0 <= b <= 0xef then 2
        else if 0xf0 <= b <= 0xf4 then 3
        else 0;
      if b == 0x9c {
        ghost var p := parsed;
        AdvanceOne(ESC);
        AdvanceOne(BACKSLASH);
        assert parsed == p + [ESC, BACKSLASH];
      } else {
        AdvanceOne(b);
      }
    }

    /** A parsed byte joins the open span, and settles it if one of its callbacks says so. */
    method AdvanceOne(b: byte)
      requires Tracks()
      modifies this`pending, this`parser, this`parsed, sink, sink.sticky, ring
      ensures Tracks() && parsed == old(parsed) + [b]
    {
      hide SinkFold, Pieces, PieceStep, Rendered;
      ghost var g := Segment(step, start, parsed);
      assert Init(parsed + [b]) == parsed;
      pending := pending + [b];
      var (next, cbs) := step(parser, b);
      parser := next;
      PerformAll(cbs);
      var event := sink.TakeEvent();
      parsed := parsed + [b];
      ghost var s := Span(g.at, pending, g.calls + cbs, event, sink.sticky.View());
      PiecesSnoc(ring.watermark, g.spans, s);
      Settle(event, s, Pieces(ring.watermark, g.spans));
    }

    /** What becomes of the open span, and of the ring, on an event. */
    method Settle(event: SegEvent, ghost s: Span, ghost ps: seq<Piece>)
      requires sink.Valid() && ps != [] && ring.chunks == Rendered(ps)
      requires s.event == event && s.bytes == pending && s.after == sink.sticky.View()
      modifies this`pending, sink.sticky`cache, ring
      ensures sink.Valid() && ring.chunks == Rendered(PieceStep(ring.watermark, ps, s))
      ensures pending == if event.Nothing? then old(pending) else []
    {
      hide Serialized, SpanBytes, Rendered;
      match event {
        case Nothing =>
        case DropSeq =>
          pending := [];
        case ClearSeq =>
          pending := [];
          var prologue := sink.sticky.Serialize();
          ring.Purge(CLEAR_HOME + prologue);
          RenderedSingle(CLEAR_HOME + prologue);
        case _ =>
          var span := pending;
          pending := [];
          KeptAppends(ps, s);
          ring.Append(span);
          MaybeCut();
      }
    }

    method PerformAll(cbs: seq<Callback>)
      requires sink.Valid()
      modifies sink, sink.sticky
      ensures sink.Valid() && sink.State() == SinkFold(old(sink.State()), cbs)
    {
      ghost var before := sink.State();
      for i := 0 to |cbs|
        modifies sink, sink.sticky
        invariant sink.Valid() && sink.State() == SinkFold(before, cbs[..i])
      {
        assert Init(cbs[..i + 1]) == cbs[..i];
        sink.Perform(cbs[i]);
      }
      assert cbs[..|cbs|] == cbs;
    }

    method MaybeCut()
      requires ring.Valid() && sink.Valid()
      modifies sink.sticky`cache, ring
      ensures sink.Valid()
      ensures ring.chunks == old(ring.chunks)
                + if |Last(old(ring.chunks)).data| < ring.watermark then []
                  else [Chunk(Serialized(sink.sticky.View()), [])]
    {
      if ring.ShouldCut() {
        var prologue := sink.sticky.Serialize();
        ring.Cut(prologue);
      }
    }

    method Replay(want: nat) returns (out: seq<byte>)
      requires Valid()
      ensures out == ReplayedBytes(step, start, ring.watermark, raw, want)
    {
      out := ring.Replay(want);
    }

    method ShellStatus() returns (status: Status)
      requires Valid()
      ensures status == StatusOf(step, start, raw)
    {
      status := sink.status;
    }
  }

  lemma PiecesSnoc(watermark: nat, spans: seq<Span>, s: Span)
    ensures Pieces(watermark, spans + [s]) == PieceStep(watermark, Pieces(watermark, spans), s)
  {
    assert Init(spans + [s]) == spans;
  }

  lemma RenderedSingle(prologue: seq<byte>)
    ensures Rendered([Piece(prologue, [])]) == [Chunk(prologue, [])]
  {
  }

  /** Appending a span's bytes to the open chunk is appending the span to the open piece. */
  lemma KeptAppends(ps: seq<Piece>, s: Span)
    requires ps != []
    ensures var open := Piece(Last(ps).prologue, Last(ps).kept + [s]);
            var chunks := Rendered(ps);
            && Last(Rendered(Init(ps) + [open])).data == SpanBytes(open.kept)
            && Rendered(Init(ps) + [open])
               == Init(chunks) + [Chunk(Last(chunks).prologue, Last(chunks).data + s.bytes)]
            && Rendered(Init(ps) + [open] + [Piece(Serialized(s.after), [])])
               == Rendered(Init(ps) + [open]) + [Chunk(Serialized(s.after), [])]
  {
    assert Init(Last(ps).kept + [s]) == Last(ps).kept;
  }
}
