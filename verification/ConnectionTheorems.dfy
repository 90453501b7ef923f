/** What a session connection's frames mean to its actor, frame by frame and byte by byte. */
module ConnectionTheorems {
  import opened Bytes
  import opened Protocol
  import opened ActorCommands
  import opened Connection

  /** The frames up to the first CLOSE, and that one. */
  function UpToClose(fs: seq<Frame>): seq<Frame> {
    if fs == [] then []
    else if fs[0].ty.Close? then [fs[0]]
    else [fs[0]] + UpToClose(fs[1..])
  }

  /** Frames that are meant for the actor: INPUT, CLOSE, and RESIZE with a payload that decodes. */
  predicate Speaks(json: Json, f: Frame) {
    f.ty.Input? || f.ty.Close? || (f.ty.Resize? && json.resize(f.payload).Some?)
  }

  function Speaking(json: Json, fs: seq<Frame>): seq<Frame> {
    if fs == [] then []
    else if Speaks(json, fs[0]) then [fs[0]] + Speaking(json, fs[1..])
    else Speaking(json, fs[1..])
  }

  /** What such a frame says: its payload as input, its size, its grace or 0. */
  predicate Says(json: Json, f: Frame, cmd: SessionCommand) {
    match cmd
    case Input(bytes) => f.ty.Input? && bytes == f.payload
    case Resize(cols, rows) => f.ty.Resize? && json.resize(f.payload) == Some((cols, rows))
    case Close(graceMs) =>
      f.ty.Close? && (json.close(f.payload) == Some(graceMs) || (json.close(f.payload).None? && graceMs == 0))
    case _ => false
  }

  ghost predicate SaidInOrder(json: Json, fs: seq<Frame>, cmds: seq<SessionCommand>) {
    |cmds| == |fs| && forall i :: 0 <= i < |fs| ==> Says(json, fs[i], cmds[i])
  }

  /** One frame: its command, if it has one, is what it says. */
  lemma CommandIsSaid(json: Json, f: Frame)
    ensures if Speaks(json, f) then |CommandOf(json, f)| == 1 && Says(json, f, CommandOf(json, f)[0])
            else CommandOf(json, f) == []
  {
  }

  lemma SaidBehind(json: Json, f: Frame, cmd: SessionCommand, fs: seq<Frame>, cmds: seq<SessionCommand>)
    requires Says(json, f, cmd) && SaidInOrder(json, fs, cmds)
    ensures SaidInOrder(json, [f] + fs, [cmd] + cmds)
  {
    hide Says;
  }

  /** The commands are what the frames up to the first CLOSE say, one each, in order. */
  lemma {:induction false} CommandsAreSaid(json: Json, fs: seq<Frame>)
    ensures SaidInOrder(json, Speaking(json, UpToClose(fs)), Commands(json, fs))
  {
    if fs != [] {
      var f, rest := fs[0], fs[1..];
      CommandIsSaid(json, f);
      assert f.ty.Close? ==> Speaks(json, f);
      assert SaidInOrder(json, [], []);
      hide Speaks, Says, CommandOf, SaidInOrder;
      var to := UpToClose(fs);
      assert to[0] == f;
      if f.ty.Close? {
        assert to[1..] == [] && Speaking(json, []) == [] && Commands(json, fs) == CommandOf(json, f);
        assert CommandOf(json, f) == [CommandOf(json, f)[0]] + [];
        SaidBehind(json, f, CommandOf(json, f)[0], [], []);
      } else {
        CommandsAreSaid(json, rest);
        assert to[1..] == UpToClose(rest);
        if Speaks(json, f) {
          assert CommandOf(json, f) == [CommandOf(json, f)[0]];
          SaidBehind(json, f, CommandOf(json, f)[0], Speaking(json, UpToClose(rest)), Commands(json, rest));
        } else {
          assert Commands(json, fs) == [] + Commands(json, rest) == Commands(json, rest);
        }
      }
    }
  }

  // ---------------------------------------------------------- by kind

  function InputIn(f: Frame): seq<byte> {
    if f.ty.Input? then f.payload else []
  }

  function InputOf(cmd: SessionCommand): seq<byte> {
    if cmd.Input? then cmd.bytes else []
  }

  /** The bytes typed, in all: those of the INPUT frames ahead of the first CLOSE, and no other. */
  lemma {:induction false} InputIsSent(json: Json, fs: seq<Frame>)
    ensures Gather(InputOf, Commands(json, fs)) == Gather(InputIn, UpToClose(fs))
  {
    hide Gather;
    GatherNothing(InputOf);
    GatherNothing(InputIn);
    if fs != [] {
      var f, rest := fs[0], fs[1..];
      InputIsSent(json, rest);
      GatherOne(InputIn, f);
      if f.ty.Close? {
        GatherOne(InputOf, SessionCommand.Close(GraceOf(json, f)));
      } else {
        GatherConcat(InputIn, [f], UpToClose(rest));
        GatherConcat(InputOf, CommandOf(json, f), Commands(json, rest));
        if CommandOf(json, f) != [] {
          GatherOne(InputOf, CommandOf(json, f)[0]);
        }
      }
    }
  }

  lemma GatherNothing<A, B>(f: A -> seq<B>)
    ensures Gather(f, []) == []
  {
  }

  lemma GatherOne<A, B>(f: A -> seq<B>, x: A)
    ensures Gather(f, [x]) == f(x)
  {
    GatherSnoc(f, [], x);
    assert [] + [x] == [x];
  }

  ghost predicate HasClose(fs: seq<Frame>) {
    exists i :: 0 <= i < |fs| && fs[i].ty.Close?
  }

  ghost predicate SendsClose(cmds: seq<SessionCommand>) {
    exists i :: 0 <= i < |cmds| && cmds[i].Close?
  }

  /** A CLOSE is sent exactly if there is a CLOSE frame, and then as the last command. */
  lemma {:induction false} CloseComesLast(json: Json, fs: seq<Frame>)
    ensures var cmds := Commands(json, fs);
            && (SendsClose(cmds) <==> HasClose(fs))
            && forall i :: 0 <= i < |cmds| && cmds[i].Close? ==> i == |cmds| - 1
  {
    if fs != [] {
      var f, rest := fs[0], fs[1..];
      CloseComesLast(json, rest);
      var cmds, front := Commands(json, fs), CommandOf(json, f);
      if f.ty.Close? {
        assert cmds == [SessionCommand.Close(GraceOf(json, f))];
        assert cmds[0].Close?;
      } else {
        CloseBehind(front, Commands(json, rest));
        if HasClose(rest) {
          var i :| 0 <= i < |rest| && rest[i].ty.Close?;
          assert fs[i + 1].ty.Close?;
        }
        if HasClose(fs) {
          var i :| 0 <= i < |fs| && fs[i].ty.Close?;
          assert rest[i - 1].ty.Close?;
        }
      }
    }
  }

  lemma CloseBehind(front: seq<SessionCommand>, back: seq<SessionCommand>)
    requires forall i :: 0 <= i < |front| ==> !front[i].Close?
    requires forall i :: 0 <= i < |back| && back[i].Close? ==> i == |back| - 1
    ensures SendsClose(front + back) <==> SendsClose(back)
    ensures forall i :: 0 <= i < |front + back| && (front + back)[i].Close? ==> i == |front + back| - 1
  {
    if SendsClose(back) {
      var j :| 0 <= j < |back| && back[j].Close?;
      assert (front + back)[|front| + j].Close?;
    }
    forall i | 0 <= i < |front + back| && (front + back)[i].Close?
      ensures i == |front + back| - 1 && SendsClose(back)
    {
      assert back[i - |front|].Close?;
    }
  }

  // -------------------------------------------------- whole connections

  /** The first frame opens a session: it is ATTACH_OR_OPEN, its payload decodes, and the id is admitted. */
  predicate Opens(json: Json, admits: string -> bool, fs: seq<Frame>) {
    && fs != [] && fs[0].ty.AttachOrOpen?
    && json.attach(fs[0].payload).Some? && admits(json.attach(fs[0].payload).value.sessionId)
  }

  /**
   * A connection sends nothing unless its first frame opens a session. Then it sends an Attach with the depth and
   * the size decoded from that frame, and behind it what the other frames say.
   */
  lemma {:induction false} SessionIsSaid(json: Json, admits: string -> bool, consumer: nat -> Consume, fs: seq<Frame>)
    ensures var cmds := SessionCommands(json, admits, consumer, fs);
            && (cmds != [] <==> Opens(json, admits, fs))
            && (cmds != [] ==>
                  var req := json.attach(fs[0].payload).value;
                  && cmds[0].Attach? && cmds[0].req.wantChunks == req.wantChunks
                  && cmds[0].req.cols == req.cols && cmds[0].req.rows == req.rows
                  && cmds[0].req.consumer == consumer
                  && SaidInOrder(json, Speaking(json, UpToClose(fs[1..])), cmds[1..])
                  && Gather(InputOf, cmds) == Gather(InputIn, UpToClose(fs[1..])))
  {
    if Opens(json, admits, fs) {
      CommandsAreSaid(json, fs[1..]);
      InputIsSent(json, fs[1..]);
      var cmds := SessionCommands(json, admits, consumer, fs);
      assert cmds[1..] == Commands(json, fs[1..]);
      assert cmds == [cmds[0]] + cmds[1..];
      hide Gather, Commands, Speaking, UpToClose;
      GatherConcat(InputOf, [cmds[0]], cmds[1..]);
      GatherOne(InputOf, cmds[0]);
    }
  }

  /** On the wire: frames that a peer encodes, within the cap, reach the actor as what they say. */
  lemma {:induction false} WireIsSaid(json: Json, admits: string -> bool, consumer: nat -> Consume, fs: seq<Frame>)
    requires forall f :: f in fs ==> WithinCap(f)
    ensures Greedy(EncodeAll(fs)).frames == fs
    ensures var cmds := SessionCommands(json, admits, consumer, Greedy(EncodeAll(fs)).frames);
            Opens(json, admits, fs) ==>
              && cmds != [] && cmds[0].Attach?
              && SaidInOrder(json, Speaking(json, UpToClose(fs[1..])), cmds[1..])
              && Gather(InputOf, cmds) == Gather(InputIn, UpToClose(fs[1..]))
  {
    hide Greedy, EncodeAll, WithinCap, Gather, Speaking, UpToClose, SessionCommands;
    GreedyReadsEncoded(fs, []);
    assert EncodeAll(fs) + [] == EncodeAll(fs);
    assert Greedy([]) == Parse([], None) by { NothingParsed(); }
    assert fs + [] == fs;
    SessionIsSaid(json, admits, consumer, fs);
  }

  lemma NothingParsed()
    ensures Greedy([]) == Parse([], None)
  {
  }
}
