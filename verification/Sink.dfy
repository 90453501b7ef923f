/** The parser's sink: classifies each callback, and tracks visual state and shell status. */
module Sink {
  import opened Bytes
  import opened Callbacks
  import opened Prologue
  import opened Sticky

  /** What becomes of the bytes of the span that a callback completes; `Nothing` completes none. */
  datatype SegEvent = Nothing | KeepByte | KeepSeq | DropSeq | ClearSeq {
    predicate Keeps() {
      KeepByte? || KeepSeq?
    }
  }

  /** Shell status: OSC 133 state and latch, OSC 9;4 progress. */
  datatype Status = Status(running: bool, progress: Option<byte>, marked: bool)

  const IDLE := Status(false, None, false)

  datatype SinkState = SinkState(visual: Visual, status: Status, event: SegEvent, stPending: Option<SegEvent>)

  const FRESH_SINK := SinkState(FRESH, IDLE, Nothing, None)

  // -------------------------------------------------------- specification

  function DigitsValue(s: seq<byte>): Option<nat> {
    if s == [] then Some(0)
    else if !IsDigit(Last(s)) then None
    else
      match DigitsValue(Init(s))
      case None => None
      case Some(n) => Some(10 * n + (Last(s) - '0' as int))
  }

  /** Rust's `str::parse::<u8>`: an optional plus sign, then digits, at most 255. */
  function ParseU8(s: seq<byte>): Option<byte> {
    var digits := if s != [] && s[0] == '+' as int then s[1..] else s;
    if digits == [] then None
    else
      match DigitsValue(digits)
      case None => None
      case Some(n) => if n <= 255 then Some(n) else None
  }

  predicate DroppedCode(code: Option<seq<byte>>) {
    || code == Some(CODE_NOTIFY) || code == Some(CODE_PROMPT)
    || code == Some(CODE_CLIPBOARD) || code == Some(CODE_NOTIFY_RXVT)
  }

  function OscEvent(fields: seq<seq<byte>>): SegEvent {
    if DroppedCode(FieldAt(fields, 0)) then DropSeq else KeepSeq
  }

  function CsiEvent(params: seq<seq<u16>>, action: byte): SegEvent {
    if action == 'n' as int || action == 'c' as int then DropSeq
    else if action == 'J' as int && (ParamAt(params, 0) == 2 || ParamAt(params, 0) == 3) then ClearSeq
    else KeepSeq
  }

  function EventOf(stPending: Option<SegEvent>, cb: Callback): SegEvent {
    match cb
    case Print => KeepByte
    case Execute(control) => if control == BEL then DropSeq else KeepSeq
    case Hook => Nothing
    case Put => Nothing
    case Unhook => KeepSeq
    case Osc(fields) => OscEvent(fields)
    case Csi(params, _, action) => CsiEvent(params, action)
    case Esc(final) =>
      if final == BACKSLASH && stPending.Some? then stPending.value
      else if final == 'c' as int then ClearSeq
      else KeepSeq
  }

  /** Only an OSC leaves its classification for a following string terminator. */
  function PendingAfter(cb: Callback): Option<SegEvent> {
    if cb.Osc? then Some(OscEvent(cb.fields)) else None
  }

  function StatusAfter(status: Status, cb: Callback): Status {
    if !cb.Osc? then status
    else
      var code, arg := FieldAt(cb.fields, 0), FieldAt(cb.fields, 1);
      if code == Some(CODE_NOTIFY) && arg == Some(['4' as int]) then
        var value := match FieldAt(cb.fields, 3) { case Some(s) => ParseU8(s) case None => None };
        status.(progress := if FieldAt(cb.fields, 2) == Some(['0' as int]) then None else value)
      else if code == Some(CODE_PROMPT) then
        var marked := status.(marked := true);
        if arg.Some? && arg.value != [] && arg.value[0] == 'C' as int then marked.(running := true)
        else if arg.Some? && arg.value != [] && arg.value[0] == 'D' as int then marked.(running := false)
        else marked
      else status
  }

  function SinkAfter(s: SinkState, cb: Callback): SinkState {
    SinkState(VisualAfter(s.visual, cb), StatusAfter(s.status, cb), EventOf(s.stPending, cb), PendingAfter(cb))
  }

  function SinkFold(s: SinkState, cbs: seq<Callback>): SinkState {
    if cbs == [] then s else SinkAfter(SinkFold(s, Init(cbs)), Last(cbs))
  }

  // ------------------------------------------------------------- the code

  class Sink {
    const sticky: StickyState
    var status: Status
    var event: SegEvent
    var stPending: Option<SegEvent>
    var sgrScratch: seq<u16>

    ghost function State(): SinkState
      reads this, sticky
    {
      SinkState(sticky.View(), status, event, stPending)
    }

    ghost predicate Valid()
      reads this, sticky
    {
      sticky.Valid()
    }

    constructor ()
      ensures Valid() && State() == FRESH_SINK && fresh(sticky)
    {
      sticky := new StickyState();
      status, event, stPending, sgrScratch := IDLE, Nothing, None, [];
    }

    method TakeEvent() returns (e: SegEvent)
      requires Valid()
      modifies this`event
      ensures Valid() && e == old(event) && State() == old(State()).(event := Nothing)
    {
      e, event := event, Nothing;
    }

    method Execute(control: byte)
      requires Valid()
      modifies this
      ensures Valid() && State() == SinkAfter(old(State()), Callback.Execute(control))
    {
      stPending := None;
      event := if control == BEL then DropSeq else KeepSeq;
    }

    method OscDispatch(fields: seq<seq<byte>>)
      requires Valid()
      modifies this, sticky
      ensures Valid() && State() == SinkAfter(old(State()), Osc(fields))
    {
      var code, arg := FieldAt(fields, 0), FieldAt(fields, 1);
      if IsTitle(code) {
        if arg.Some? {
          sticky.SetTitle(arg.value);
        }
        event := KeepSeq;
      } else if code == Some(CODE_CWD) {
        if arg.Some? {
          sticky.SetCwd(arg.value);
        }
        event := KeepSeq;
      } else if code == Some(CODE_NOTIFY) {
        if arg == Some(['4' as int]) {
          var value := if FieldAt(fields, 3).Some? then ParseU8(FieldAt(fields, 3).value) else None;
          if FieldAt(fields, 2) == Some(['0' as int]) {
            status := status.(progress := None);
          } else {
            status := status.(progress := value);
          }
        }
        event := DropSeq;
      } else if code == Some(CODE_PROMPT) {
        status := status.(marked := true);
        if arg.Some? && arg.value != [] {
          if arg.value[0] == 'C' as int {
            status := status.(running := true);
          } else if arg.value[0] == 'D' as int {
            status := status.(running := false);
          }
        }
        event := DropSeq;
      } else if code == Some(CODE_CLIPBOARD) || code == Some(CODE_NOTIFY_RXVT) {
        event := DropSeq;
      } else {
        event := KeepSeq;
      }
      stPending := Some(event);
    }

    method CsiDispatch(params: seq<seq<u16>>, intermediates: seq<byte>, action: byte)
      requires Valid()
      modifies this, sticky
      ensures Valid() && State() == SinkAfter(old(State()), Csi(params, intermediates, action))
    {
      stPending := None;
      var private := IsPrivate(intermediates);
      if action == 'n' as int || action == 'c' as int {
        event := DropSeq;
      } else if action == 'm' as int && !private {
        ApplySgr(params);
        event := KeepSeq;
      } else if action == 'r' as int && !private {
        var top, bottom := ParamAt(params, 0), ParamAt(params, 1);
        if top == 0 && bottom == 0 {
          sticky.SetScrollRegion(None);
        } else {
          sticky.SetScrollRegion(Some((top, bottom)));
        }
        event := KeepSeq;
      } else if (action == 'h' as int || action == 'l' as int) && private {
        ApplyModes(params, action == 'h' as int);
        event := KeepSeq;
      } else if action == 'J' as int {
        var mode := ParamAt(params, 0);
        event := if mode == 2 || mode == 3 then ClearSeq else KeepSeq;
      } else {
        event := KeepSeq;
      }
    }

    /** The SGR arm: parameters and subparameters flattened; a lone 0 is the default rendition. */
    method ApplySgr(params: seq<seq<u16>>)
      requires Valid()
      modifies this`sgrScratch, sticky
      ensures Valid() && sticky.View() == old(sticky.View()).(sgr := SgrOf(params))
    {
      sgrScratch := [];
      for i := 0 to |params|
        modifies this`sgrScratch
        invariant sgrScratch == Flatten(params[..i])
      {
        assert Init(params[..i + 1]) == params[..i];
        sgrScratch := sgrScratch + params[i];
      }
      assert params[..|params|] == params;
      if sgrScratch == [] || sgrScratch == [0] {
        sticky.SetSgr([]);
      } else {
        sticky.SetSgr(sgrScratch);
      }
    }

    /** The private-mode arm: every parameter's first subparameter is switched, in order. */
    method ApplyModes(params: seq<seq<u16>>, on: bool)
      requires Valid()
      modifies sticky
      ensures Valid() && sticky.View() == old(sticky.View()).(modes := SetModes(old(sticky.modes), params, on))
    {
      ghost var v := sticky.View();
      for i := 0 to |params|
        modifies sticky
        invariant Valid() && sticky.View() == v.(modes := SetModes(v.modes, params[..i], on))
      {
        assert Init(params[..i + 1]) == params[..i];
        if params[i] != [] {
          sticky.SetDecMode(params[i][0], on);
        }
      }
      assert params[..|params|] == params;
    }

    method EscDispatch(final: byte)
      requires Valid()
      modifies this
      ensures Valid() && State() == SinkAfter(old(State()), Esc(final))
    {
      if final == BACKSLASH && stPending.Some? {
        event := stPending.value;
        stPending := None;
        return;
      }
      stPending := None;
      event := if final == 'c' as int then ClearSeq else KeepSeq;
    }

    /** One parser callback. */
    method Perform(cb: Callback)
      requires Valid()
      modifies this, sticky
      ensures Valid() && State() == SinkAfter(old(State()), cb)
    {
      match cb {
        case Print =>
          stPending := None;
          event := KeepByte;
        case Execute(control) =>
          Execute(control);
        case Hook =>
          stPending := None;
          event := Nothing;
        case Put =>
          stPending := None;
          event := Nothing;
        case Unhook =>
          stPending := None;
          event := KeepSeq;
        case Osc(fields) =>
          OscDispatch(fields);
        case Csi(params, intermediates, action) =>
          CsiDispatch(params, intermediates, action);
        case Esc(final) =>
          EscDispatch(final);
      }
    }
  }
}
