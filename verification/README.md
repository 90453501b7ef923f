# jfterm multiplexer: a verified model

`jftermd` keeps terminal sessions alive behind a socket. This project models the parts of it that do not
depend on the operating system and proves what they promise, in Dafny 4.11. `dafny verify dfyconfig.toml`
checks all of it.

## What is modelled

**The replay engine** (`core/src`). `Translate` is the 0x9C rewriting; `Callbacks` the parser's callbacks
and what each does to the tracked visual state; `Prologue` the printed state prologue and a parser for it;
`Sticky`, `Ring`, `Sink` and `Scanner` are the source's mutable objects as classes, each method tied to a
function of the bytes fed so far (`Segment` cuts the stream into spans, `Pieces` puts kept spans into
chunks). `ReplayTheorems` and `SanitiserTheorems` hold for every parser, input, watermark and replay depth;
`TrackingTheorems` says what is tracked; `RereadTheorems` is about reading replayed bytes again with the same
parser, `SafeReplay` about each span's fate and what a replay may do to the terminal that reads it. `SmallParser` is one parser that is `Clean` and `Settled` and reads every
prologue; it supplies the failing inputs.

**Frames and connections** (`jftermd/src/protocol.rs`, and the readers in `server.rs`). `Protocol` has the
wire format, the greedy parse of a whole byte stream, and the streaming decoder as a class that refines
it. `Connection` runs first frame, admission, attach and reader over arbitrary socket reads;
`ConnectionTheorems` says what the peer's frames mean to the actor.

**Sessions and the daemon** (`server.rs`, `session.rs`, `registry.rs`). `Actor` is the actor's select loop
as one pure step per arm; `ActorLoop` is the loop itself, a class over a real scanner, whose every method
is proved to take that step. `ActorTheorems` has bounds on signals, endings and input, `ActorEvents` the actor
told by its events alone, `DeliveryTheorems` what each client queue is sent, `AttachmentTheorems` how long a
client stays, `StatusTheorems` what a STATUS, an info reply and a handshake say, `EngineTheorems` what the
scanner contributes. `Registry` is the session
table; `Daemon` interleaves connections, session tasks (each with its actor and its shell's process) and the
idle watcher in any order, up to the end of the runtime.

## Main results

- Replay: `SpansConserveInput`, `FullReplayHidesCuts`, `CappedReplayRestores` with `PrologueRestores`,
  `SpanFate`, `RunDisturbsIff`, `ScannerTracksLast`; on bytes, `SameStatesIffJoinsUp`, `RereadRestores`, `ReplayRereadsKept` and
  `RereadDisturbsIff`.
- Decoding: `YieldedIsGreedyPrefix`, `GreedyReadsEncoded` with `GreedyReencodes`, `CompactionIsAmortised`,
  and `ServeConnection` with `WireIsSaid` for a whole connection.
- Delivery: `DeliveryHolds`, `StaysIffTaken`, `LiveDataIsDrained`, `StatusIsTrue`, `PollsAreIgnored`,
  `DetachIsFinal`.
- Replay and live output together: `HandshakeRestores`, `SeamHoldsIff`, `ClientTracksScanner`.
- Sessions: `EscalationHolds`, `SignalsAreExact`, `LoopEndsExactly`, `InputIsForwarded`.
- The daemon: `DaemonIsSound`, `KeepUntilDead`, `ReturnsWithoutRunningShells`, `PassesOnce`.
- Promises that the code keeps only on a condition, with the condition and an input that fails it: the list
  under "Where the code and its own words differ".

## How the outside world appears

- The terminal parser is any deterministic step from a state and a byte to a state and callbacks. Two
  assumptions are made where a theorem needs them, both as visible preconditions. `Clean`: OSC fields hold
  no C0 byte and no `;`. `Settled`: if one byte causes several callbacks and an earlier one is an OSC or a
  CSI, the last one is kept whatever came before; a parser with at most one callback a byte satisfies it
  (`OneCallbackIsSettled`), and `UnsettledParserLosesState` shows what fails without it.
- Theorems on replayed bytes, prologue included, also assume `ReadsPrologue`: the parser reads that prologue as
  the control functions that were printed, and is back in its initial state behind it. A parser that does so
  for every state (`ReadsPrologues`) does so for every replay (`SelectedIsRead`).
- `SmallParser.Step` is a parser of text, escapes, control sequences and control strings that meets all three
  (`IsCleanAndSettled`, `ReadsAllPrologues`); like the source's, it reports two callbacks when CAN cuts a control
  string short.
- Spans carry the callbacks that completed them and their place in the parsed bytes. Restoring a state means
  reading the prologue on a fresh terminal, applying the kept callbacks after it, and comparing the tracked
  state (SGR parameters, DEC private modes, scroll region, cwd, title). When the kept bytes cause those
  callbacks again is a theorem of its own (`SameStatesIffJoinsUp`).
- What a prologue should be read as is said by a small reader written from sections 5.4 and 5.6 of ECMA-48,
  with BEL as string terminator as in xterm.
- The DEC private modes, an ordered map to `true` in the source, are the ascending list of its keys.
- JSON decoders, the PTY's bytes and exit code, the clock, the foreground-process answer and the order of
  the loop's events are parameters. A client's queue is bounded; an arbitrary schedule says how far its
  consumer has come before each send, and whether it has dropped the receiver.
- A command channel takes some number of commands and then no more. That stands for the end of the actor as
  well as for a reader aborted because the connection's writer ended first.
- The actor theorems take select arms in any order, so they cover the source's biased choice. A signal, and
  a write to the shell, is recorded when the loop asks for it.
- Table entries hold task numbers in place of channel senders. As the entry owns a sender, the command
  channel cannot close while it is there. Removing an entry is two steps, and the notification is a single
  permit; dropping the session is the task's last step.
- A shell's process may end by itself at any time. A recorded end is one that was seen, unless the actor gave up
  waiting for it; that is part of the action. Dropping a session kills its shell and waits for it, and so does
  the end of the runtime for all sessions left (`jftermd/src/pty.rs:265-275`); that these kills succeed is
  assumed.
- Ghost fields, and the fields of an actor's state from `attaches` on, are history; nothing decides on them.

## Where the code and its own words differ

The code was followed in each case.

- `core/src/scanner.rs:325` calls a cut a ground state, and `core/src/sticky.rs:67` a chunk self-contained. A
  control string closed by `ESC \` completes its span on the ESC, so a cut may fall before the `\`; the next
  chunk then begins with a lone `\`, and a terminal shows it (`CutSplitsTerminator`). A bell within a sequence
  is dropped together with the front of that sequence; the rest is then text, even in a full replay, and the
  state that the sequence set is lost (`BellLosesTitle`). Kept bytes are read again in the parser states of
  their first reading if and only if the kept spans join up: the first was read from the initial state, and
  each other one from the state its predecessor left (`SameStatesIffJoinsUp`). Where nothing was dropped in
  between, that is exactly a cut at ground (`ContiguousJoinsUpIffCutAtGround`).
- `docs/PROTOCOL-v1.md:361` promises that replay bytes hold no bell, clipboard access, notification or query, and
  that a bell rings from live output only. `Disturbs` is that list; `Refused` is what the sink drops by itself,
  and leaves out the colour, mode and version queries. Some kept span of a run disturbs, by a sequence, if and
  only if some byte reports a query that is not refused, or a disturbing sequence ahead of another callback
  (`RunDisturbsIff`): a query for the background colour is kept (`ColourQueryIsKept`), and so is a clipboard
  write cut short by CAN (`ClipboardSurvivesCancel`). What is refused is in no prologue, and in no kept span
  unless a byte hid it there (`ReplayHoldsNoneRefused`). On bytes, and if the kept spans join up, a fresh parser
  is disturbed if and only if a byte of a kept span let a disturbance slip (`RereadDisturbsIff`); if they do not,
  it can be rung (`BellLosesTitle`).
- `docs/PROTOCOL-v1.md:354` lists the character set in the state prologue. It is neither tracked nor printed: a
  replay holds the escapes of its kept spans and no other (`EscapesAreUntracked`), and a cut loses a designation
  (`CutLosesCharset`).
- `docs/PROTOCOL-v1.md:358` has live output follow the replay from the snapshot on. Bytes pending at the attach
  are in neither (`SeamLosesPending`). Over a tight seam, where the kept spans join up and end in the parser state
  that the scanner is in, the client tracks the scanner from then on (`ClientTracksScanner`). If they join up, it
  does so on every continuation if and only if the two parser states make the same of each (`SeamHoldsIff`);
  behind a kept and replayed last span, the seam is tight if and only if the pending bytes lead the parser back
  to where they found it (`TightIffPendingReturns`).
- `jftermd/src/server.rs:668` speaks of a table that stays empty for the whole grace period. Only its two ends
  are looked at, so a session that comes and goes within it is overlooked (`GraceIsNotRestarted`). Between the
  two looks the table was empty throughout if and only if nothing was created (`ReturnsAfterEmptyGraceIff`).
- The same comment speaks of the first session to have existed. One that comes and goes before the watcher's
  first look is missed, and the daemon stays up (`ShortSessionIsMissed`); with every session gone, it exits
  if and only if the watcher has left its first loop (`QuietDaemonExits`).
- A client can be sent EXIT twice (`ClientSeesExitTwice`). Any queue that was sent EXIT is sent another frame if
  and only if its client is still attached and a CLOSE finds room (`SecondExitNeedsClose`); the loop has ended
  then.
- `docs/PROTOCOL-v1.md:267` says CLOSE stops further attaches. An attach is served if and only if the loop
  runs (`AttachTakesOverWhileRunning`), and it runs on behind a CLOSE (`ClosingStillAccepts`).
- `docs/PROTOCOL-v1.md:293` gives progress as 0 to 100. Over any run it is n if and only if the last OSC 9;4 is a
  report, in a state other than 0, of a numeral of n, of at most 255 (`ProgressIsLastReport`); nothing is clamped
  (`ProgressIsTracked`).
- `jftermd/src/server.rs:120` drops failed sends of the handshake. It arrives whole if and only if the consumer
  keeps up (`OfferedWholeIffKeptUp`), which for one that takes nothing means that it fits the queue
  (`IdleConsumerNeedsRoom`). Delivery is promised for queues that deep.
- The tracked SGR is the parameters of the last SGR, not the accumulated rendition, and a full reset leaves
  the tracked state as it is; the restoring theorems are about tracked state.

## Model

| member | source | states |
|---|---|---|
| Protocol.TypeByteRoundTrip | jftermd/src/protocol.rs:18-55 | a frame type's byte reads back as that type, and no other byte does |
| Protocol.WireTags | jftermd/src/protocol.rs:18-55 | each frame type has its documented byte, 1 to 11 |
| Protocol.WireLayout | jftermd/src/protocol.rs:70-84 | an encoding is the type byte, the length in four bytes with the most significant first, and the payload |
| Protocol.HeaderErrors | jftermd/src/protocol.rs:153-163 | a header is an error exactly if it declares more than 16 MiB, whatever its type, or else has a type byte outside 1 to 11; which of the two is said |
| Protocol.FrameRoundTrip | jftermd/src/protocol.rs:72-84 | an encoded frame is read back from the front of any stream if and only if its payload is within the cap |
| Protocol.ParsedReencodes | jftermd/src/protocol.rs:153-175 | the bytes a parsed frame took are exactly that frame's encoding |
| Protocol.FrontIsStable | jftermd/src/protocol.rs:153-175 | later bytes change neither a decoded frame nor an error |
| Protocol.GreedyReadsEncoded | jftermd/src/protocol.rs:70-84 | any frames within the cap, encoded one behind the other, decode to those frames, then the rest is parsed |
| Protocol.GreedyReencodes | jftermd/src/protocol.rs:153-175 | every stream is the encodings of its frames, in order, and the bytes left unread |
| Protocol.LeftoverHoldsNoFrame | jftermd/src/protocol.rs:151-175 | every decoded frame is within the cap; the bytes left unread are incomplete or carry exactly the reported error |
| Protocol.GreedyExtends | jftermd/src/protocol.rs:151-175 | reading on only adds frames, and an error is final |
| Protocol.ChunkedPayloads | jftermd/src/protocol.rs:247-254 | splitting output into DATA frames keeps its bytes; no frame is empty or above the cap |
| Protocol.FramesAreFull | jftermd/src/protocol.rs:247-254 | output within 16 MiB is one frame; of more, every frame but the last holds 16 MiB |
| Protocol.BulkRoundTrip | jftermd/src/protocol.rs:247-254 | output of any size survives framing, encoding and decoding, with nothing left over |
| Protocol.FrameDecoder.Push | jftermd/src/protocol.rs:135-140 | appends to the unread bytes, yields nothing, and keeps the account of moved bytes |
| Protocol.FrameDecoder.Compact | jftermd/src/protocol.rs:143-149 | keeps the unread bytes, resets the cursor, and moves each unread byte once |
| Protocol.FrameDecoder.NextFrame | jftermd/src/protocol.rs:153-175 | yields the front frame, asks for more, or reports the error, leaving the unread bytes accordingly |
| Protocol.YieldedIsGreedyPrefix | jftermd/src/protocol.rs:118-175 | for all pushes and reads, the frames yielded are a prefix of the greedy parse of all bytes pushed, and all of it once drained |
| Protocol.CompactionIsAmortised | jftermd/src/protocol.rs:107-175 | under the readers' discipline, at most two bytes are moved per byte pushed; cursor and buffer stay bounded |
| Connection.ReadOneFrame | jftermd/src/server.rs:135-150 | returns the first frame of the whole stream and leaves exactly the rest of the parse to come, or nothing if there is none |
| Connection.Deliver | jftermd/src/server.rs:616-646 | sends the one command of a frame; the connection ends on CLOSE or when the actor takes no more |
| Connection.ReaderTask | jftermd/src/server.rs:593-655 | sends the commands of all frames up to the first CLOSE or error, as many as the actor takes, however reads split the stream; buffered bytes first |
| Connection.ServeConnection | jftermd/src/server.rs:504-556 | a whole session connection sends Attach and then the commands of all later frames, or a first part of them if the actor ends or the reader is aborted; nothing pipelined behind the first frame is lost |
| ConnectionTheorems.CommandsAreSaid | jftermd/src/server.rs:616-646 | the commands are, in order, what the INPUT, decodable RESIZE and CLOSE frames up to the first CLOSE say: payload, size, grace or 0 |
| ConnectionTheorems.InputIsSent | jftermd/src/server.rs:616-625 | the bytes typed are exactly the payloads of the INPUT frames ahead of the first CLOSE |
| ConnectionTheorems.CloseComesLast | jftermd/src/server.rs:639-644 | a CLOSE is sent if and only if there is a CLOSE frame, and then as the last command |
| ConnectionTheorems.SessionIsSaid | jftermd/src/server.rs:504-556 | a connection sends something if and only if its first frame opens a session: an Attach with the decoded depth and size, and then what the other frames say |
| ConnectionTheorems.WireIsSaid | jftermd/src/server.rs:593-655 | on bytes: what a peer encodes as INPUT, RESIZE and CLOSE is what the actor is sent |
| Callbacks.SetModeSpec | core/src/sticky.rs:42-49 | switching a mode changes its own membership only and keeps the codes in ascending order |
| Callbacks.VisualStaysWellFormed | core/src/scanner.rs:84-173 | every state reached over clean callbacks has ordered modes, no bare-0 SGR, no 0;0 region, clean cwd and title |
| TrackingTheorems.ScannerTracksLast | core/src/scanner.rs:84-173 | for every parser and input, each tracked part is what the last callback of its kind says: title, cwd, SGR parameters, scroll region, and each private mode by itself |
| TrackingTheorems.PrologueOverridesSgr | core/src/sticky.rs:66-81 | read on a terminal in any rendition, a prologue leaves the printed one |
| Prologue.ControlReadBack | core/src/sticky.rs:83-119 | a printed control sequence, cwd or title is read back as what it stands for, whatever follows |
| Prologue.PrologueIsRead | core/src/sticky.rs:79-122 | a whole prologue, of a cut or of a clear, is read back as exactly the controls that were printed |
| Prologue.PrologueRestores | core/src/sticky.rs:79-122 | for every well-formed state, reading its prologue on a fresh terminal rebuilds exactly that state |
| Prologue.ClearPrologueRestores | core/src/scanner.rs:300-305 | the base that a clear leaves behind rebuilds the state too |
| Sticky.StickyState.SetDecMode | core/src/sticky.rs:42-49 | switches one mode, changes nothing else, and leaves no stale cache |
| Sticky.StickyState.Serialize | core/src/sticky.rs:69-76 | cached or not, returns the serialisation of the current state and changes no tracked state |
| Sticky.StickyState.BuildSerialized | core/src/sticky.rs:79-122 | the pushing loops produce the printed prologue |
| Ring.ChunkRing.Replay | core/src/ring.rs:68-81 | the first selected chunk's prologue and all selected data; at least one chunk and at most the wanted number |
| ReplayTheorems.DepthCountsChunks | core/src/ring.rs:68-81 | a depth asks for that many chunks from the end: the last one at least, all if there are no more; with the first one's prologue |
| Translate.TranslateConcat | core/src/scanner.rs:238-281 | splitting the input over feeds changes nothing |
| Translate.OwedIsReach | core/src/scanner.rs:243-266 | the counter is positive exactly when an unbroken run of continuation bytes links the position to a lead, and says how many are owed |
| Translate.TranslatedIsExpected | core/src/scanner.rs:238-281 | exactly the 0x9C bytes owed to no lead become `ESC \`, all other bytes stay; the length grows by the rewrites |
| Translate.TranslateIdempotent | core/src/scanner.rs:238-281 | translating twice is translating once |
| Translate.Utf8Passes | core/src/scanner.rs:219-223 | every string well-formed by section 4 of RFC 3629 passes unchanged and leaves nothing owed |
| Translate.LeadsAnnounce | core/src/scanner.rs:259-266 | a byte announces as many continuation bytes as the characters have that it leads in section 4 of RFC 3629 |
| Sink.Sink.OscDispatch | core/src/scanner.rs:84-132 | each OSC's effect on title, cwd, progress, running, latch, event and pending terminator |
| Sink.Sink.CsiDispatch | core/src/scanner.rs:134-190 | each CSI's effect on SGR, region and modes, and its classification |
| Sink.Sink.Perform | core/src/scanner.rs:53-209 | any callback takes the sink to the specified state |
| Scanner.Scanner.Feed | core/src/scanner.rs:238-281 | after any feeds, parser, sink, pending bytes and ring are functions of all bytes fed, in whatever pieces |
| Scanner.Scanner.AdvanceOne | core/src/scanner.rs:285-307 | one parsed byte extends the segmentation by one step |
| Scanner.Scanner.Replay | core/src/scanner.rs:310-312 | the replay is a function of all bytes fed, watermark and depth |
| Scanner.Scanner.ShellStatus | core/src/scanner.rs:315-322 | the status and the latch are functions of all bytes fed |
| ReplayTheorems.SpansConserveInput | core/src/scanner.rs:285-307 | the completed spans in order, then the pending bytes, are exactly the parsed bytes; likewise for the callbacks |
| ReplayTheorems.SinceLastClear | core/src/scanner.rs:300-305 | after a last clear, base and retained spans are that clear's prologue and the spans kept behind it |
| ReplayTheorems.PiecesHoldSince | core/src/ring.rs:39-64 | cutting loses, adds and reorders nothing: the chunks hold the spans kept since the last clear |
| ReplayTheorems.ReplayIsKeptSpans | core/src/ring.rs:68-81 | a replay of any depth is one prologue and the bytes of whole kept spans |
| ReplayTheorems.FullReplayHidesCuts | core/src/ring.rs:66-81 | a full replay is the same for every watermark |
| ReplayTheorems.UnkeptChangesNothing | core/src/scanner.rs:84-208 | no callback that is dropped or clears changes tracked state |
| ReplayTheorems.SegmentIsLinked | core/src/scanner.rs:285-307 | over every input, each span leads from its predecessor's state to its own, and one not kept leads nowhere |
| ReplayTheorems.EveryChunkRestores | core/src/scanner.rs:300-330 | from every chunk, its prologue and the spans kept from there on lead to the current state |
| ReplayTheorems.CappedReplayRestores | core/src/ring.rs:66-81 | for every input, watermark and depth, the prologue and the callbacks of the kept spans restore exactly the live tracked state |
| ReplayTheorems.OneCallbackIsSettled | core/src/scanner.rs:285-289 | a parser with at most one callback a byte meets the assumption on parsers |
| ReplayTheorems.UnsettledParserLosesState | core/src/scanner.rs:285-299 | a parser that does not meet it, and a state it loses |
| RereadTheorems.SpansAreInPlace | core/src/scanner.rs:285-307 | every completed span is a slice of the parsed bytes between two boundaries, and its entry state reads it as one span with its callbacks |
| RereadTheorems.SameStatesIffJoinsUp | core/src/scanner.rs:324-330 | kept bytes are read again in the states of their first reading if and only if the kept spans join up from the initial state |
| RereadTheorems.ContiguousJoinsUpIffCutAtGround | core/src/scanner.rs:324-330 | with nothing dropped in between, they join up if and only if the cut was made at ground |
| RereadTheorems.JoinedCalls | core/src/scanner.rs:285-307 | kept spans that join up cause the recorded callbacks again |
| RereadTheorems.ProloguesArePrinted | core/src/scanner.rs:300-330 | every chunk's prologue is empty, or printed from a state that the scanner reached |
| RereadTheorems.RereadRestores | core/src/ring.rs:66-81 | if they join up, and the parser reads the prologue as printed, the replayed bytes, prologue and all, lead a fresh parser and sink to exactly the live tracked state |
| RereadTheorems.GroundedRereads | core/src/scanner.rs:324-330 | a parser that is at ground whenever a span completes reads every replay's kept bytes as the recorded callbacks |
| RereadTheorems.RereadKeeps | core/src/scanner.rs:84-208 | kept spans that join up, read again as bytes, are cut into the same spans with the same classification |
| RereadTheorems.ReplayRereadsKept | core/src/scanner.rs:84-208 | so, on bytes, no span of a replay is dropped or taken for a clear when read again |
| SmallParser.IsCleanAndSettled | core/src/scanner.rs:285-289 | the small parser meets both assumptions on parsers |
| SmallParser.ReadsAllPrologues | core/src/sticky.rs:79-122 | the small parser reads every prologue as printed, back to its initial state |
| SmallParser.ReplayRestores | core/src/ring.rs:66-81 | with the small parser, replayed bytes restore the live state if the kept spans join up, with no other hypothesis |
| SmallParser.CutSplitsTerminator | core/src/scanner.rs:192-200 | an input whose last chunk is the lone backslash of a terminator, which a fresh parser prints |
| SmallParser.BellLosesTitle | core/src/scanner.rs:59-67 | an input in which a bell drops the front of a sequence: a full replay reads as four prints and a bell, and the tracked title is not restored |
| SafeReplay.RefusedIsDropped | core/src/scanner.rs:59-140 | what the sink drops by itself, exactly; of the disturbing callbacks it keeps some queries, and no other |
| SafeReplay.SpanFate | core/src/scanner.rs:53-209 | for every parser and input, a span clears if and only if its last callback is an erasure of the screen (CSI 2 J, CSI 3 J, or ESC c), is dropped if and only if that is refused or terminates a refused string, and is kept otherwise |
| SafeReplay.RingStartsOverAtErasure | core/src/scanner.rs:174-185 | the base of a replay changes, and what was kept is gone, exactly at such an erasure; a kept span is added, and any other changes nothing |
| SafeReplay.BaseErasesAndHomes | core/src/scanner.rs:300-305 | the base that a clear leaves is read as an erasure, a homing of the cursor, and the prologue |
| SmallParser.EraseAllStartsOver | core/src/scanner.rs:174-185 | text and `ESC [ 2 J` leave a base and no text |
| SmallParser.EraseBelowKeeps | core/src/scanner.rs:174-185 | text and `ESC [ J` are both kept |
| SafeReplay.KeptSpanHoldsIff | core/src/scanner.rs:53-209 | for every parser and any callbacks but escapes, a kept span holds one if and only if one of its bytes reports it ahead of another callback, or it is one that is kept |
| SafeReplay.KeptSpansHoldNoneRefused | core/src/scanner.rs:53-209 | for every parser, if no byte of the run hides a refused callback, no kept span holds one |
| SafeReplay.KeptSequenceIff | core/src/scanner.rs:84-190 | for every settled parser and any sequences, some kept span of a run holds one if and only if some byte lets one slip |
| SafeReplay.RunDisturbsIff | core/src/scanner.rs:84-190 | for every settled parser, some kept span of a run disturbs by a sequence if and only if some byte reports a query that is not refused, or a disturbing sequence ahead of another callback |
| SafeReplay.ReplayHoldsNoneRefused | core/src/scanner.rs:285-307 | if no byte hides a refused callback, no replay holds one, neither in its prologue nor in a kept span |
| SafeReplay.EscapesAreUntracked | core/src/scanner.rs:192-208 | escapes change no tracked state, and a replay holds those of its kept spans only: no prologue has any |
| SafeReplay.RereadHoldsNoneRefused | core/src/ring.rs:66-81 | nor do the replayed bytes cause one when read by a fresh parser that reads the prologue as printed, if the kept spans join up |
| SafeReplay.RereadDisturbsIff | core/src/ring.rs:66-81 | under the same conditions, a fresh parser that reads a replay is disturbed if and only if a byte of a kept span let a disturbance slip |
| SmallParser.ReplayIsQuiet | core/src/ring.rs:66-81 | with the small parser, replayed bytes cause nothing refused if no byte hid any and the kept spans join up |
| SmallParser.ClipboardSurvivesCancel | core/src/scanner.rs:59-67 | a clipboard write cut short by CAN is kept, and read again as one |
| SmallParser.ColourQueryIsKept | core/src/scanner.rs:127-129 | a query for the background colour, reported by itself, is kept, and read again as one |
| SmallParser.CutLosesCharset | core/src/scanner.rs:192-208 | a designation of the line-drawing set, cut off: the last chunk's replay has the text, and no designation |
| SanitiserTheorems.SegmentIsClassified | core/src/scanner.rs:84-132 | every span's event is the classification of its callbacks behind what the previous span left pending |
| SanitiserTheorems.KeptStaysKept | core/src/scanner.rs:192-208 | a fresh sink fed with kept spans only keeps each of them, terminators included |
| SanitiserTheorems.ReplayIsFixedPoint | core/src/scanner.rs:84-208 | a fresh sink given the callbacks of any replay's kept spans classifies each span as kept again |
| SanitiserTheorems.TerminatorFollowsString | core/src/scanner.rs:192-200 | an OSC and a directly following `ESC \` get the same classification |
| SanitiserTheorems.ChunkSizes | core/src/ring.rs:47-57 | the open chunk is below the watermark; a sealed one reached it with its last span and not before |
| SanitiserTheorems.ChunkCount | core/src/ring.rs:47-64 | the chunk count is at most 1 and the retained bytes over the watermark |
| SanitiserTheorems.SmallerReplayIsSuffix | core/src/ring.rs:66-81 | a smaller depth trims whole spans from the front, and nothing else |
| SanitiserTheorems.StatusFollowsMarkers | core/src/scanner.rs:113-123 | running exactly while the last C has no D behind it; latched exactly once any marker was seen |
| SanitiserTheorems.MarkingLatches | core/src/scanner.rs:319-322 | the latch survives all later input |
| ActorLoop.ActorLoop.EffectiveStatus | jftermd/src/server.rs:301-321 | the engine's running once prompt marking was seen, the poll's before; the engine's progress |
| ActorLoop.ActorLoop.Push | jftermd/src/server.rs:79-87 | queues the frame or detaches the client |
| ActorLoop.ActorLoop.BindClient | jftermd/src/server.rs:112-132 | resizes, offers the handshake, and makes the new queue the client |
| ActorLoop.ActorLoop.OnClose | jftermd/src/server.rs:383-406 | a CLOSE; over a dead session EXIT and the end of the loop |
| ActorLoop.ActorLoop.OnAttach | jftermd/src/server.rs:407-419 | poll before marking, handshake, recorded status; over a dead session the end of the loop |
| ActorLoop.ActorLoop.OnReadable | jftermd/src/server.rs:423-466 | engine fed, exit recorded, data, then status, then EXIT |
| ActorLoop.ActorLoop.Turn | jftermd/src/server.rs:367-496 | any event takes the actor to the state machine's next state |
| ActorLoop.ActorLoop.Loop | jftermd/src/server.rs:346-498 | the loop over a real scanner is the state machine's run on the same events |
| ActorTheorems.EscalationHolds | jftermd/src/server.rs:383-479 | in every run: while the loop runs, dead exactly when the retention deadline is set, and closing only over a live shell; a kill deadline only while closing; each SIGKILL behind a SIGHUP and not before the deadline it answers; with the command channel open, the loop is left over a live shell exactly on an I/O error |
| ActorTheorems.SignalsAreTimely | jftermd/src/session.rs:187-200 | no step signals a dead session, and a SIGKILL answers the deadline armed last |
| ActorTheorems.KillsAreBounded | jftermd/src/server.rs:391-394 | SIGKILLs are at most as many as the CLOSEs with a grace |
| ActorTheorems.InputIsForwarded | jftermd/src/server.rs:374-376 | the writes to the shell are the INPUTs in order, all of them while the shell lives and the loop runs, and none after |
| ActorEvents.SignalsAreExact | jftermd/src/server.rs:383-479 | in every run: while the loop runs over a live shell, each CLOSE adds one SIGHUP, each resize or attach one SIGWINCH, and a kill timer one SIGKILL if and only if it is at or past the deadline of the last CLOSE with a grace and none was so before; nothing else adds any |
| ActorEvents.KillsExactly | jftermd/src/server.rs:472-479 | so the SIGKILLs grow exactly by the timer at a pending deadline, over a live shell |
| ActorEvents.CloseEscalatesToKill | jftermd/src/server.rs:383-406 | a live session, a CLOSE with a grace and its deadline: SIGHUP, then SIGKILL |
| ActorEvents.SizeIsLastAskedFor | jftermd/src/session.rs:129-136 | while the loop runs, the size is the one that the last resize or attach asked for |
| ActorEvents.DeadFromFirstExit | jftermd/src/session.rs:102-112 | the shell is dead exactly from the first end of file on, with the status reaped then |
| ActorEvents.LoopEndsExactly | jftermd/src/server.rs:367-498 | every end of the loop, told by the events: the command channel, a failed read, the end of file behind a CLOSE, a CLOSE or attach over a dead shell, the end of its retention; and no other |
| DeliveryTheorems.DataFramesCarry | jftermd/src/server.rs:99-103 | drained bytes go out as data frames with exactly those bytes |
| DeliveryTheorems.OfferedWholeIffKeptUp | jftermd/src/server.rs:119-128 | for every consumer, the handshake is queued whole if and only if at each send the receiver is there and the backlog leaves room |
| DeliveryTheorems.IdleConsumerNeedsRoom | jftermd/src/server.rs:119-128 | for a consumer that takes nothing, that means exactly that the handshake fits the queue |
| DeliveryTheorems.DeliveryHolds | jftermd/src/server.rs:346-498 | in every run, every queue deep enough for its handshake is sent replay, one STATUS and live frames whose DATA frames are a prefix, frame by frame, of those that the drains since have made; EXIT behind all output and followed by the same EXIT only; consecutive STATUS differ; an attached client misses nothing and its last STATUS is current |
| DeliveryTheorems.OutputIsDrains | jftermd/src/server.rs:431-436 | the DATA frames on offer are those of each drain, whole drains in order |
| DeliveryTheorems.LiveDataIsDrained | jftermd/src/server.rs:99-103 | in bytes: behind a handshake that fits, live data is a prefix of what was drained since, and all of it for an attached client |
| DeliveryTheorems.ExitMeansDead | jftermd/src/server.rs:453-454 | in every run, no queue whatever is sent EXIT before the shell is dead |
| DeliveryTheorems.SecondExitNeedsClose | jftermd/src/server.rs:395-405 | any queue that was sent EXIT is sent another frame if and only if its client is attached and a CLOSE finds room; it is an EXIT, and the loop has ended |
| DeliveryTheorems.ClientSeesExitTwice | jftermd/src/server.rs:395-405 | a run in which a client is sent EXIT twice |
| DeliveryTheorems.DetachIsFinal | jftermd/src/server.rs:77-132 | in every run, a queue that lost the client's place, by takeover or a failed send, is sent nothing in all the rest |
| AttachmentTheorems.StaysIffTaken | jftermd/src/server.rs:77-103 | in every run and step of a running loop, the client stays attached if and only if no other attach is served, no read fails, no CLOSE meets a dead shell, and its queue takes all frames of the step; it has been sent all of them then |
| AttachmentTheorems.ExitIsTold | jftermd/src/server.rs:453-454 | in every run, the last frame sent to the attached client of a dead session is EXIT with its status |
| StatusTheorems.StatusIsTrue | jftermd/src/server.rs:301-321 | in every run of an actor over a scanner, an attached client's last STATUS says running if and only if, once a marker was printed, the last C has no D behind it, and before that the last poll asked was answered busy; its progress is that of the last report |
| StatusTheorems.StoredPollIsLast | jftermd/src/server.rs:407-496 | the stored poll result is the answer of the last poll asked: at an attach, in a drain whose data the client took, or on a tick, and only before a marker |
| StatusTheorems.InfoIsTrue | jftermd/src/session.rs:166-213 | an info reply says running by the same markers or the poll's answer, never over a dead shell, and whether there is a client |
| StatusTheorems.AttachIsOffered | jftermd/src/server.rs:112-132 | an attach is offered a replay of the depth that it asks for, of all that was drained, and EXIT exactly over a dead shell |
| StatusTheorems.ZeroAsksForAll | jftermd/src/session.rs:138-151 | depth 0 is everything: the base of the last clear and all spans kept since |
| DeliveryTheorems.PollsAreIgnored | jftermd/src/server.rs:301-321 | from the first marker on, two runs that differ in all poll answers send every client the same |
| DeliveryTheorems.AttachTakesOverWhileRunning | jftermd/src/server.rs:407-419 | an attach becomes the client if and only if the loop runs; it ends the loop exactly over a dead shell |
| DeliveryTheorems.ClosingStillAccepts | jftermd/src/server.rs:383-419 | a CLOSE and then an attach: the session is closing and alive, and serves the new client |
| EngineTheorems.ScannerLatches | core/src/scanner.rs:113-123 | the scanner meets the actor's assumption that marking latches, over raw bytes and any split |
| EngineTheorems.HandshakeRestores | jftermd/src/server.rs:119-122 | in every run of an actor over a scanner, each handshake's data is a prologue and kept spans that restore exactly the visual state tracked at that attach; its very bytes do, read by a fresh parser that reads the prologue as printed, if the kept spans join up |
| EngineTheorems.SeamHolds | jftermd/src/server.rs:112-132 | over a tight seam, a fresh parser that reads a replay and then what the scanner parses next has the scanner's tracked state at every later point |
| EngineTheorems.SeamHoldsIff | jftermd/src/server.rs:112-132 | if the kept spans join up, it has so on every continuation if and only if the seam's parser state and the scanner's make the same tracked state of each |
| EngineTheorems.TightIffPendingReturns | core/src/scanner.rs:285-299 | behind a last span that is kept and replayed, a seam is tight if and only if the pending bytes lead the parser back to where they found it; with none pending it is |
| EngineTheorems.ClientTracksScanner | jftermd/src/server.rs:346-498 | in every run, a terminal fed with all the data sent to a client, handshake and live, has the visual state that the scanner had behind the bytes drained by then, if the handshake was queued whole over a tight seam |
| SmallParser.SeamLosesPending | core/src/scanner.rs:285-299 | an attach within a control string: its bytes are in neither replay nor live data, and the client never sees the title that the scanner tracks |
| EngineTheorems.ProgressIsTracked | core/src/scanner.rs:99-112 | any numeral n, leading zeros and plus sign included, is tracked as n up to 255, unset beyond, and cleared by state 0 |
| EngineTheorems.ParseU8Spec | core/src/scanner.rs:102-105 | a value field is read as n if and only if n is at most 255 and the field a numeral of n |
| EngineTheorems.ProgressIsLastReport | core/src/scanner.rs:99-112 | over any run the progress is n if and only if the last OSC 9;4 is a report of a numeral of n, in a state other than 0, of at most 255 |
| Registry.Registry.AttachOrCreate | jftermd/src/registry.rs:94-111 | an existing id is bound to its own handle, a new one created under the cap and notified, or rejected with nothing changed |
| Registry.Registry.Remove | jftermd/src/registry.rs:114-120 | takes that id's entry only, and notifies |
| Daemon.DaemonIsSound | jftermd/src/registry.rs:94-142 | in every interleaving: the table is exactly the tasks not yet removed, one an id, within the cap; actors left over a live shell exactly on an I/O error and never for a closed channel; a watcher parked over an empty table has a remover about to notify, and in the first loop none is parked, or waits without a permit, while a session is there |
| Daemon.KeepUntilDead | jftermd/src/server.rs:386-388 | before the shutdown, an entry leaves the table only by its own task's removal, behind its actor's end; its shell may run then only behind an I/O failure or a wait given up, and not at all in a run without these |
| Daemon.ExistingIsNeverRejected | jftermd/src/registry.rs:94-101 | an id in the table is never turned away, and creates no second task |
| Daemon.AdmittedIff | jftermd/src/registry.rs:94-111 | in every run, a session is created if and only if the daemon is up, no task in the table has its id, and the table is below the cap; nothing changes otherwise |
| Daemon.PhasesAdvance | jftermd/src/server.rs:558-591 | tasks only move forward, and before the shutdown leave the table only by their own removal |
| Daemon.PassesOnce | jftermd/src/server.rs:558-591 | in every run, each task passes each of its phases at most once: one removal, one notification, one drop |
| Daemon.OnlyWatcherReturns | jftermd/src/server.rs:671-685 | the watcher returns exactly when its look after the grace period finds the table empty, and enters the period exactly after a look that found it so |
| Daemon.BusyDaemonParks | jftermd/src/server.rs:671-685 | over a session and with no notification to come, the watcher parks: it does not spin |
| Daemon.ReturnsWithoutRunningShells | jftermd/src/server.rs:671-685 | when the watcher returns, no task is in the table, and a shell that may still run belongs to a task that has yet to drop its session, behind an I/O failure or a wait given up; none may run once all have dropped theirs, whatever failed |
| Daemon.DropsEndShells | jftermd/src/pty.rs:265-275 | in every run, the shell of a task that has dropped its session does not run |
| Daemon.OwnStepsEndShell | jftermd/src/server.rs:498-499 | a task that is leaving needs only its own three steps for that |
| Daemon.ShutdownEndsAllShells | jftermd/src/main.rs:133-147 | behind the watcher's return or a signal, the end of the runtime leaves no shell running |
| Daemon.EmptyIffNothingCreated | jftermd/src/server.rs:676-682 | while the daemon is up, an empty table stays empty throughout any actions if and only if they create nothing |
| Daemon.ReturnsAfterEmptyGraceIff | jftermd/src/server.rs:671-685 | a return comes from two looks at an empty table; in between it was empty throughout if and only if nothing was created |
| Daemon.QuietDaemonExits | jftermd/src/server.rs:671-685 | with every session gone, the daemon exits on its own if and only if the watcher has left its first loop |
| Daemon.ShortSessionIsMissed | jftermd/src/server.rs:671-674 | a run in which the only session is gone before the watcher's first look again, and the daemon stays up |
| Daemon.GraceIsNotRestarted | jftermd/src/server.rs:676-682 | a run in which a session comes and goes within the grace period, and the daemon exits all the same |

## Left out

- Connection.ServeConnection: waiting for room in the command channel of 256 is not modelled.
- Connection.ReadOneFrame: reads are bounded by 64 KiB, not by the first reader's smaller buffer of 4096 bytes, so more read patterns are covered.
- Protocol.FrameDecoder.Push: memory is a sequence; capacity and reallocation of the buffer do not appear, only moved bytes.
- Prologue.ControlReadBack: the reader has no `:` subparameters and no intermediates but `?`, as the printed prologues hold none; the cap on the number of parameters that the source's parser imposes is its own.
- ActorTheorems.InputIsForwarded: how much of a write the PTY takes is not modelled; the source ignores a short write.
- Actor timing: deadlines are compared with a clock given by the events; latency, fairness and missed ticks are not stated.
- The parts of an info reply that never change (id, command line, directory, time of creation).
- `jftermd/src/pty.rs`: spawning, reading and reaping; they appear as bytes, exit codes, requested signals, and processes that run or have ended. Whether a signal or the kill of a drop takes effect is not modelled, nor are processes that left the shell's group.
- `jftermd/src/daemonize.rs`, `socket.rs`, and `main.rs` but for its shutdown: locks, forking, permissions, start-up.
- `core/src/engine.rs`, `core/src/status.rs`: delegation and setters, inlined.
- The control connection (`handle_control`, `collect_sessions`), peer credentials, tracing: plumbing.
- Internals of the terminal parser, the async runtime and the JSON library.
- SafeReplay.RunDisturbsIff: queries within device control strings are not in it; the sink does not look at what these hold, and keeps them.
- Equality of terminal screens: it needs an emulator, and the tracked SGR does not determine it.
- Machine widths other than those of bytes, 16-bit parameters, the 32-bit length and the 64-bit replay depth: counters are unbounded.
- Pending bytes of an unfinished sequence: as in the source, they are not part of a replay.
- Rows for setters, constructors and steps of proofs: the methods are proved, and their contracts stand beside them.
