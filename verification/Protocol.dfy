/** The length-prefixed wire format: frames, their encoding, and the streaming decoder. */
module Protocol {
  import opened Bytes

  /** Largest value a frame may declare. */
  const MAX_FRAME_LEN: nat := 16 * 1024 * 1024

  /** The decoder gives consumed bytes back once its cursor has come this far. */
  const COMPACT_THRESHOLD: nat := 64 * 1024

  /** Size of the session reader's buffer, so of the largest push. */
  const READ_BUFFER: nat := 64 * 1024

  datatype FrameType =
    | Hello | HelloOk | List | Sessions
    | AttachOrOpen | Input | Resize | Close
    | Data | Status | Exit
  {
    function AsByte(): byte {
      match this
      case Hello => 1
      case HelloOk => 2
      case List => 3
      case Sessions => 4
      case AttachOrOpen => 5
      case Input => 6
      case Resize => 7
      case Close => 8
      case Data => 9
      case Status => 10
      case Exit => 11
    }

    static function TryFrom(b: byte): Option<FrameType> {
      match b
      case 1 => Some(Hello)
      case 2 => Some(HelloOk)
      case 3 => Some(List)
      case 4 => Some(Sessions)
      case 5 => Some(AttachOrOpen)
      case 6 => Some(Input)
      case 7 => Some(Resize)
      case 8 => Some(Close)
      case 9 => Some(Data)
      case 10 => Some(Status)
      case 11 => Some(Exit)
      case _ => None
    }
  }

  datatype Frame = Frame(ty: FrameType, payload: seq<byte>)

  datatype ProtocolError = UnknownType(b: byte) | FrameTooLarge(n: u32)

  datatype Result<+T> = Ok(value: T) | Err(error: ProtocolError)

  // ---------------------------------------------------------------- encoding

  function Pow256(k: nat): (p: nat)
    ensures p > 0
  {
    if k == 0 then 1 else 0x100 * Pow256(k - 1)
  }

  /** The low `k` bytes of `n`, most significant first. */
  function BigEndian(n: nat, k: nat): (w: seq<byte>)
    ensures |w| == k
  {
    if k == 0 then [] else BigEndian(n / 0x100, k - 1) + [n % 0x100]
  }

  function FromBigEndian(w: seq<byte>): (n: nat)
    ensures n < Pow256(|w|)
  {
    if w == [] then 0 else 0x100 * FromBigEndian(Init(w)) + Last(w)
  }

  lemma WordFits(w: seq<byte>)
    requires |w| == 4
    ensures FromBigEndian(w) < 0x1_0000_0000
  {
    assert Pow256(4) == 0x1_0000_0000;
  }

  /** The length is cast to 32 bits, so it wraps for larger payloads. */
  function Encode(f: Frame): seq<byte> {
    [f.ty.AsByte()] + BigEndian(|f.payload| % 0x1_0000_0000, 4) + f.payload
  }

  function EncodeAll(fs: seq<Frame>): seq<byte> {
    if fs == [] then [] else Encode(fs[0]) + EncodeAll(fs[1..])
  }

  predicate WithinCap(f: Frame) {
    |f.payload| <= MAX_FRAME_LEN
  }

  // ------------------------------------------------------- the greedy parse

  /** What the front of an unread byte string is. */
  datatype Front = NeedMore | Bad(error: ProtocolError) | Got(frame: Frame, size: nat)

  function ParseFront(s: seq<byte>): (r: Front)
    ensures r.Got? ==> 5 <= r.size <= |s| && r.size == 5 + |r.frame.payload| && WithinCap(r.frame)
    ensures r.NeedMore? ==> |s| < 5 + MAX_FRAME_LEN
  {
    if |s| < 5 then NeedMore
    else
      var len := FromBigEndian(s[1..5]);
      WordFits(s[1..5]);
      if len > MAX_FRAME_LEN then Bad(FrameTooLarge(len))
      else
        match FrameType.TryFrom(s[0])
        case None => Bad(UnknownType(s[0]))
        case Some(ty) =>
          if |s| < 5 + len then NeedMore else Got(Frame(ty, s[5..5 + len]), 5 + len)
  }

  /** Everything a byte string says: its frames, and the error that ends it, if any. */
  datatype Parse = Parse(frames: seq<Frame>, error: Option<ProtocolError>)

  function Greedy(s: seq<byte>): Parse
    decreases |s|
  {
    match ParseFront(s)
    case NeedMore => Parse([], None)
    case Bad(e) => Parse([], Some(e))
    case Got(f, n) =>
      var p := Greedy(s[n..]);
      Parse([f] + p.frames, p.error)
  }

  function Prepend(fs: seq<Frame>, p: Parse): Parse {
    Parse(fs + p.frames, p.error)
  }

  /** The documented type bytes. */
  lemma WireTags()
    ensures [Hello.AsByte(), HelloOk.AsByte(), List.AsByte(), Sessions.AsByte()] == [1, 2, 3, 4]
    ensures [AttachOrOpen.AsByte(), Input.AsByte(), Resize.AsByte(), Close.AsByte()] == [5, 6, 7, 8]
    ensures [Data.AsByte(), Status.AsByte(), Exit.AsByte()] == [9, 10, 11]
  {
  }

  /** The documented layout: the type byte, the length in four bytes with the most significant first, the value. */
  lemma WireLayout(f: Frame)
    requires |f.payload| < 0x1_0000_0000
    ensures var n := |f.payload|;
            Encode(f) == [f.ty.AsByte(), n / 0x100_0000, n / 0x1_0000 % 0x100, n / 0x100 % 0x100, n % 0x100] + f.payload
  {
    var n := |f.payload|;
    BigEndianBytes(n);
    hide BigEndian;
    assert n % 0x1_0000_0000 == n;
  }

  lemma BigEndianBytes(n: nat)
    requires n < 0x1_0000_0000
    ensures BigEndian(n, 4) == [n / 0x100_0000, n / 0x1_0000 % 0x100, n / 0x100 % 0x100, n % 0x100]
  {
    var n1, n2, n3 := n / 0x100, n / 0x1_0000, n / 0x100_0000;
    assert n1 / 0x100 == n2 && n2 / 0x100 == n3 && n3 / 0x100 == 0 && n3 % 0x100 == n3;
    assert BigEndian(n3, 1) == BigEndian(0, 0) + [n3] == [n3];
    assert BigEndian(n2, 2) == BigEndian(n3, 1) + [n2 % 0x100];
    assert BigEndian(n1, 3) == BigEndian(n2, 2) + [n1 % 0x100];
    assert BigEndian(n, 4) == BigEndian(n1, 3) + [n % 0x100];
  }

  /** Four bytes as a number, the most significant first. */
  function Word(b3: int, b2: int, b1: int, b0: int): int {
    0x100_0000 * b3 + 0x1_0000 * b2 + 0x100 * b1 + b0
  }

  lemma FourBytes(w: seq<byte>)
    requires |w| == 4
    ensures FromBigEndian(w) == Word(w[0], w[1], w[2], w[3])
  {
    var w3, w2, w1 := Init(w), w[..2], w[..1];
    assert Init(w3) == w2 && Init(w2) == w1 && Init(w1) == [];
    assert FromBigEndian(w1) == w[0];
    assert FromBigEndian(w2) == 0x100 * FromBigEndian(w1) + w[1];
    assert FromBigEndian(w3) == 0x100 * FromBigEndian(w2) + w[2];
    assert FromBigEndian(w) == 0x100 * FromBigEndian(w3) + w[3];
  }

  /**
   * Which headers are errors: a declared length above 16 MiB first, whatever the type byte, and then a type byte
   * outside the documented range, whatever has arrived of the value.
   */
  lemma HeaderErrors(s: seq<byte>)
    requires |s| >= 5
    ensures var n := Word(s[1], s[2], s[3], s[4]);
            && 0 <= n < 0x1_0000_0000
            && (n > 16 * 1024 * 1024 <==> ParseFront(s) == Bad(FrameTooLarge(n)))
            && (n <= 16 * 1024 * 1024 ==> (ParseFront(s) == Bad(UnknownType(s[0])) <==> s[0] == 0 || s[0] > 11))
            && (n <= 16 * 1024 * 1024 && 1 <= s[0] <= 11 ==> !ParseFront(s).Bad?)
  {
    FourBytes(s[1..5]);
    hide FromBigEndian;
  }

  lemma TypeByteRoundTrip(ty: FrameType, b: byte)
    ensures FrameType.TryFrom(ty.AsByte()) == Some(ty)
    ensures FrameType.TryFrom(b) == Some(ty) <==> b == ty.AsByte()
  {
  }

  lemma {:induction false} BigEndianReadBack(n: nat, k: nat)
    requires n < Pow256(k)
    ensures FromBigEndian(BigEndian(n, k)) == n
  {
    if k > 0 {
      BigEndianReadBack(n / 0x100, k - 1);
      assert Init(BigEndian(n, k)) == BigEndian(n / 0x100, k - 1);
    }
  }

  lemma {:induction false} BigEndianWriteBack(w: seq<byte>)
    ensures BigEndian(FromBigEndian(w), |w|) == w
  {
    if w != [] {
      BigEndianWriteBack(Init(w));
      var n := FromBigEndian(w);
      assert n / 0x100 == FromBigEndian(Init(w)) && n % 0x100 == Last(w);
    }
  }

  /** A frame survives the wire exactly when its payload respects the cap. */
  lemma FrameRoundTrip(f: Frame, tail: seq<byte>)
    ensures ParseFront(Encode(f) + tail) == Got(f, |Encode(f)|) <==> WithinCap(f)
  {
    var s := Encode(f) + tail;
    assert s[1..5] == BigEndian(|f.payload| % 0x1_0000_0000, 4);
    BigEndianReadBack(|f.payload| % 0x1_0000_0000, 4);
    TypeByteRoundTrip(f.ty, s[0]);
    if WithinCap(f) {
      assert s[5..5 + |f.payload|] == f.payload;
    }
  }

  /** Conversely, the bytes a parsed frame took are the encoding of that frame. */
  lemma ParsedReencodes(s: seq<byte>)
    requires ParseFront(s).Got?
    ensures s == Encode(ParseFront(s).frame) + s[ParseFront(s).size..]
  {
    var r := ParseFront(s);
    BigEndianWriteBack(s[1..5]);
    TypeByteRoundTrip(r.frame.ty, s[0]);
    assert Encode(r.frame) == [s[0]] + s[1..5] + s[5..r.size];
  }

  /** A decided front stays decided: later bytes cannot change a frame or an error. */
  lemma FrontIsStable(s: seq<byte>, more: seq<byte>)
    requires !ParseFront(s).NeedMore?
    ensures ParseFront(s + more) == ParseFront(s)
  {
    var t := s + more;
    assert t[1..5] == s[1..5];
    if ParseFront(s).Got? {
      var n := ParseFront(s).size;
      assert t[5..n] == s[5..n];
    }
  }

  lemma GreedyReadsOne(f: Frame, rest: seq<byte>)
    requires WithinCap(f)
    ensures Greedy(Encode(f) + rest) == Prepend([f], Greedy(rest))
  {
    FrameRoundTrip(f, rest);
    assert (Encode(f) + rest)[|Encode(f)|..] == rest;
  }

  /** Encoded frames are read back as those frames, whatever follows them. */
  lemma {:induction false} GreedyReadsEncoded(fs: seq<Frame>, tail: seq<byte>)
    requires forall f :: f in fs ==> WithinCap(f)
    ensures Greedy(EncodeAll(fs) + tail) == Prepend(fs, Greedy(tail))
  {
    hide Encode, WithinCap, ParseFront, Greedy;
    var p := Greedy(tail);
    if fs == [] {
      assert EncodeAll(fs) + tail == tail;
      assert fs + p.frames == p.frames;
    } else {
      var rest := EncodeAll(fs[1..]) + tail;
      calc {
        Greedy(EncodeAll(fs) + tail);
        { assert EncodeAll(fs) + tail == Encode(fs[0]) + rest; }
        Greedy(Encode(fs[0]) + rest);
        { GreedyReadsOne(fs[0], rest); GreedyReadsEncoded(fs[1..], tail); }
        Prepend([fs[0]], Prepend(fs[1..], p));
        { assert [fs[0]] + (fs[1..] + p.frames) == fs + p.frames; }
        Prepend(fs, p);
      }
    }
  }

  /** The bytes that the greedy parse leaves unread. */
  function Leftover(s: seq<byte>): seq<byte>
    decreases |s|
  {
    match ParseFront(s)
    case NeedMore => s
    case Bad(_) => s
    case Got(_, n) => Leftover(s[n..])
  }

  /** The parse accounts for every byte: the frames' encodings, then a rest. */
  lemma {:induction false} GreedyReencodes(s: seq<byte>)
    ensures s == EncodeAll(Greedy(s).frames) + Leftover(s)
    decreases |s|
  {
    hide Encode, WithinCap, ParseFront;
    if ParseFront(s).Got? {
      var f, n := ParseFront(s).frame, ParseFront(s).size;
      ParsedReencodes(s);
      GreedyReencodes(s[n..]);
      var fs := Greedy(s).frames;
      assert fs[1..] == Greedy(s[n..]).frames;
      assert s == Encode(f) + (EncodeAll(fs[1..]) + Leftover(s));
    }
  }

  /** All frames are within the cap, and the rest holds none: it is incomplete, or carries the error that came up. */
  lemma {:induction false} LeftoverHoldsNoFrame(s: seq<byte>)
    ensures forall f :: f in Greedy(s).frames ==> WithinCap(f)
    ensures var front := ParseFront(Leftover(s));
            !front.Got? && Greedy(s).error == if front.Bad? then Some(front.error) else None
    decreases |s|
  {
    hide WithinCap, ParseFront;
    if ParseFront(s).Got? {
      LeftoverHoldsNoFrame(s[ParseFront(s).size..]);
    }
  }

  /** Reading on never changes what was read: frames only grow, and an error is final. */
  lemma {:induction false} GreedyExtends(s: seq<byte>, more: seq<byte>)
    ensures Greedy(s).frames <= Greedy(s + more).frames
    ensures Greedy(s).error.Some? ==> Greedy(s + more) == Greedy(s)
    decreases |s|
  {
    if !ParseFront(s).NeedMore? {
      FrontIsStable(s, more);
      if ParseFront(s).Got? {
        var n := ParseFront(s).size;
        GreedyExtends(s[n..], more);
        assert (s + more)[n..] == s[n..] + more;
      }
    }
  }

  // ------------------------------------------------- splitting bulk output

  /** Bulk output as frames of at most `cap` bytes each. */
  function Chunked(bytes: seq<byte>, cap: nat): seq<Frame>
    requires cap > 0
    decreases |bytes|
  {
    if bytes == [] then []
    else
      var n := if |bytes| <= cap then |bytes| else cap;
      [Frame(Data, bytes[..n])] + Chunked(bytes[n..], cap)
  }

  function FrameData(bytes: seq<byte>): seq<Frame> {
    Chunked(bytes, MAX_FRAME_LEN)
  }

  function Payloads(fs: seq<Frame>): seq<byte> {
    if fs == [] then [] else fs[0].payload + Payloads(fs[1..])
  }

  lemma {:induction false} ChunkedPayloads(bytes: seq<byte>, cap: nat)
    requires cap > 0
    ensures Payloads(Chunked(bytes, cap)) == bytes
    ensures forall f :: f in Chunked(bytes, cap) ==> f.ty == Data && 0 < |f.payload| <= cap
    decreases |bytes|
  {
    if bytes != [] {
      var n := if |bytes| <= cap then |bytes| else cap;
      ChunkedPayloads(bytes[n..], cap);
      assert Chunked(bytes, cap)[1..] == Chunked(bytes[n..], cap);
      assert bytes == bytes[..n] + bytes[n..];
    }
  }

  /** All frames but the last are full; what fits the cap is one frame. */
  lemma {:induction false} ChunksAreFull(bytes: seq<byte>, cap: nat)
    requires cap > 0
    ensures var fs := Chunked(bytes, cap);
            forall i :: 0 <= i < |fs| - 1 ==> |fs[i].payload| == cap
    ensures 0 < |bytes| <= cap ==> Chunked(bytes, cap) == [Frame(Data, bytes)]
    decreases |bytes|
  {
    if bytes != [] {
      var n := if |bytes| <= cap then |bytes| else cap;
      ChunksAreFull(bytes[n..], cap);
      if |bytes| <= cap {
        assert bytes[n..] == [] && bytes[..n] == bytes;
        assert Chunked([], cap) == [];
      }
    }
  }

  /** Output within 16 MiB goes out as one frame; of more, every frame but the last holds 16 MiB. */
  lemma FramesAreFull(bytes: seq<byte>)
    ensures 0 < |bytes| <= 0x100_0000 ==> FrameData(bytes) == [Frame(Data, bytes)]
    ensures var fs := FrameData(bytes);
            forall i :: 0 <= i < |fs| - 1 ==> |fs[i].payload| == 0x100_0000
  {
    assert MAX_FRAME_LEN == 0x100_0000;
    assert FrameData(bytes) == Chunked(bytes, MAX_FRAME_LEN);
    ChunksAreFull(bytes, MAX_FRAME_LEN);
  }

  /** Output of any size, framed, encoded, and read back, is the same output; nothing is left over. */
  lemma BulkRoundTrip(bytes: seq<byte>)
    ensures var p := Greedy(EncodeAll(FrameData(bytes)));
            p == Parse(FrameData(bytes), None) && Payloads(p.frames) == bytes
  {
    ChunkedPayloads(bytes, MAX_FRAME_LEN);
    GreedyReadsEncoded(FrameData(bytes), []);
    assert EncodeAll(FrameData(bytes)) + [] == EncodeAll(FrameData(bytes));
    assert Greedy([]) == Parse([], None);
    assert FrameData(bytes) + [] == FrameData(bytes);
  }

  // ---------------------------------------------------------- the decoder

  /** Taking the front frame of what is unread moves its encoding behind those of the frames before. */
  lemma FrontIsTaken(before: seq<Frame>, frame: Frame, rest: seq<byte>, total: nat)
    requires ParseFront(rest) == Got(frame, total)
    ensures total <= |rest| && WithinCap(frame)
    ensures EncodeAll(before) + rest == EncodeAll(before + [frame]) + rest[total..]
  {
    ParsedReencodes(rest);
    EncodeAllSnoc(before, frame);
    assert rest == rest[..total] + rest[total..];
    hide ParseFront, Encode, EncodeAll;
  }

  lemma {:induction false} EncodeAllSnoc(fs: seq<Frame>, f: Frame)
    ensures EncodeAll(fs + [f]) == EncodeAll(fs) + Encode(f)
  {
    if fs == [] {
      assert fs + [f] == [f] && EncodeAll([f][1..]) == [];
    } else {
      EncodeAllSnoc(fs[1..], f);
      assert (fs + [f])[1..] == fs[1..] + [f];
    }
  }

  /**
   * The streaming decoder. The ghost fields record its whole history: the bytes ever pushed, the
   * frames ever yielded, and the number of bytes that compaction has moved. `disciplined` says
   * that every push was at most a read buffer, made when no complete frame was waiting; that is
   * how both readers use the decoder.
   */
  class FrameDecoder {
    var buf: seq<byte>
    var pos: nat

    ghost var pushed: seq<byte>
    ghost var yielded: seq<Frame>
    ghost var shifted: nat
    ghost var disciplined: bool
    /** Size of the last push, whether a frame has been consumed since, and whether one of those reads compacted. */
    ghost var lastPush: nat
    ghost var consumed: bool
    ghost var reclaimed: bool

    ghost function Unread(): seq<byte>
      reads this
    {
      if pos <= |buf| then buf[pos..] else []
    }

    /** Every pushed byte is either in a yielded frame or still unread, in order. */
    ghost predicate Conserves()
      reads this
    {
      && pos <= |buf|
      && pos < COMPACT_THRESHOLD
      && (forall f :: f in yielded ==> WithinCap(f))
      && pushed == EncodeAll(yielded) + buf[pos..]
    }

    /** Each push pays in advance for two moves of its own bytes, one by each caller of `compact`. */
    ghost predicate Amortised()
      reads this
    {
      && lastPush <= |pushed|
      && lastPush <= READ_BUFFER
      && |buf| < 5 + MAX_FRAME_LEN + READ_BUFFER
      && (!consumed ==>
            && pos == 0 && !reclaimed
            && lastPush <= |buf|
            && ParseFront(buf[..|buf| - lastPush]).NeedMore?
            && shifted + 2 * lastPush <= 2 * |pushed|)
      && (consumed ==>
            && |buf| - pos < lastPush
            && (reclaimed ==> |buf| < lastPush)
            && shifted + (if reclaimed then 1 else 2) * lastPush <= 2 * |pushed|)
    }

    ghost predicate Valid()
      reads this
    {
      Conserves() && (disciplined ==> Amortised())
    }

    constructor ()
      ensures Valid() && disciplined && Unread() == []
      ensures pushed == [] && yielded == [] && shifted == 0
    {
      buf, pos := [], 0;
      pushed, yielded, shifted := [], [], 0;
      disciplined, lastPush, consumed, reclaimed := true, 0, false, false;
    }

    method Push(bytes: seq<byte>)
      requires Valid()
      modifies this
      ensures Valid()
      ensures pushed == old(pushed) + bytes && yielded == old(yielded)
      ensures Unread() == old(Unread()) + bytes
      ensures disciplined == (old(disciplined) && |bytes| <= READ_BUFFER && old(ParseFront(Unread()).NeedMore?))
    {
      hide ParseFront, Encode, EncodeAll;
      ghost var unread, wire := Unread(), EncodeAll(yielded);
      assert wire + unread + bytes == wire + (unread + bytes);
      Compact();
      buf := buf + bytes;
      pushed := pushed + bytes;
      assert pushed == wire + buf;
      disciplined := disciplined && |bytes| <= READ_BUFFER && ParseFront(unread).NeedMore?;
      lastPush, consumed, reclaimed := |bytes|, false, false;
      assert buf[..|buf| - lastPush] == unread;
      assert buf == unread + bytes;
    }

    /** Gives the consumed front of the buffer back; the unread rest moves to the front. */
    method Compact()
      requires pos <= |buf|
      modifies this`buf, this`pos, this`shifted
      ensures pos == 0 && buf == old(Unread())
      ensures shifted == old(shifted) + if old(pos) == 0 then 0 else |buf|
    {
      if pos == 0 {
        return;
      }
      buf := buf[pos..];
      pos := 0;
      shifted := shifted + |buf|;
    }

    method NextFrame() returns (r: Result<Option<Frame>>)
      requires Valid()
      modifies this
      ensures Valid()
      ensures pushed == old(pushed) && disciplined == old(disciplined)
      ensures var front := ParseFront(old(Unread()));
              && (front.NeedMore? ==> r == Ok(None) && yielded == old(yielded) && Unread() == old(Unread()))
              && (front.Bad? ==> r == Err(front.error) && yielded == old(yielded) && Unread() == old(Unread()))
              && (front.Got? ==>
                    && r == Ok(Some(front.frame))
                    && yielded == old(yielded) + [front.frame]
                    && Unread() == old(Unread())[front.size..])
    {
      var avail := buf[pos..];
      if |avail| < 5 {
        return Ok(None);
      }
      var len := FromBigEndian(avail[1..5]);
      WordFits(avail[1..5]);
      if len > MAX_FRAME_LEN {
        return Err(FrameTooLarge(len));
      }
      var ty := FrameType.TryFrom(avail[0]);
      if ty.None? {
        return Err(UnknownType(avail[0]));
      }
      var total := 5 + len;
      if |avail| < total {
        return Ok(None);
      }
      var frame := Frame(ty.value, avail[5..total]);
      Advance(frame, total);
      r := Ok(Some(frame));
    }

    /** Moves the cursor past the front frame, and compacts when it has come far enough. */
    method Advance(ghost frame: Frame, total: nat)
      requires Valid() && ParseFront(Unread()) == Got(frame, total)
      modifies this
      ensures Valid()
      ensures pushed == old(pushed) && disciplined == old(disciplined)
      ensures yielded == old(yielded) + [frame] && Unread() == old(Unread())[total..]
    {
      hide ParseFront, Encode, EncodeAll, WithinCap;
      ghost var rest := Unread()[total..];
      Account(frame, total);
      pos := pos + total;
      assert buf[pos..] == rest;
      if pos >= COMPACT_THRESHOLD {
        Compact();
        reclaimed := true;
        assert buf[pos..] == rest;
      }
    }

    /** Records that the front frame has been taken. It ends inside the last push. */
    ghost method Account(frame: Frame, total: nat)
      requires Valid() && ParseFront(Unread()) == Got(frame, total)
      modifies this`yielded, this`consumed
      ensures yielded == old(yielded) + [frame] && consumed
      ensures forall f :: f in yielded ==> WithinCap(f)
      ensures pushed == EncodeAll(yielded) + Unread()[total..]
      ensures disciplined ==> |Unread()| - total < lastPush
      ensures disciplined && !old(consumed) ==> pos == 0 && !reclaimed
    {
      var cut := |buf| - lastPush;
      if disciplined && !consumed {
        assert buf[..cut] + buf[cut..] == Unread();
        FrontOfPrefix(buf[..cut], buf[cut..]);
      }
      FrontIsTaken(yielded, frame, Unread(), total);
      hide ParseFront, Encode, EncodeAll, WithinCap;
      yielded := yielded + [frame];
      consumed := true;
    }
  }

  /** What has been yielded is the front of the greedy parse of all bytes pushed, whatever the pushes were. */
  lemma YieldedIsGreedyPrefix(d: FrameDecoder)
    requires d.Valid()
    ensures Greedy(d.pushed) == Prepend(d.yielded, Greedy(d.Unread()))
    ensures ParseFront(d.Unread()).NeedMore? ==> Greedy(d.pushed) == Parse(d.yielded, None)
  {
    GreedyReadsEncoded(d.yielded, d.Unread());
    assert d.yielded + [] == d.yielded;
  }

  /** Under the readers' discipline, compaction moves at most two bytes per byte received, and the buffer is bounded. */
  lemma CompactionIsAmortised(d: FrameDecoder)
    requires d.Valid() && d.disciplined
    ensures d.shifted <= 2 * |d.pushed|
    ensures d.pos < COMPACT_THRESHOLD && |d.buf| <= MAX_FRAME_LEN + 4 + READ_BUFFER
  {
  }

  /** If the bytes up to some point hold no complete frame, a frame of the whole ends beyond that point. */
  lemma FrontOfPrefix(s: seq<byte>, more: seq<byte>)
    requires ParseFront(s).NeedMore? && ParseFront(s + more).Got?
    ensures |s| < ParseFront(s + more).size
  {
    var t := s + more;
    if |s| >= 5 {
      assert t[1..5] == s[1..5];
    }
  }
}
