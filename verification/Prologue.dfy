/**
 * The prologue printer, and a parser for what it prints, written from sections 5.4 (control
 * sequences) and 5.6 (control strings) of ECMA-48; BEL as a string terminator is the xterm extension.
 */
module Prologue {
  import opened Bytes
  import opened Callbacks

  // --------------------------------------------------------------- printer

  const CSI: seq<byte> := [ESC, '[' as int]
  const OSC: seq<byte> := [ESC, ']' as int]

  function Decimal(n: nat): seq<byte> {
    if n < 10 then ['0' as int + n] else Decimal(n / 10) + ['0' as int + n % 10]
  }

  function Joined(ps: seq<u16>): seq<byte> {
    if ps == [] then []
    else if |ps| == 1 then Decimal(ps[0])
    else Decimal(ps[0]) + [SEMICOLON] + Joined(ps[1..])
  }

  function SgrText(sgr: seq<u16>): seq<byte> {
    if sgr == [] then [] else CSI + Joined(sgr) + ['m' as int]
  }

  function ModeText(code: u16): seq<byte> {
    CSI + ['?' as int] + Decimal(code) + ['h' as int]
  }

  function ModesText(modes: seq<u16>): seq<byte> {
    if modes == [] then [] else ModeText(modes[0]) + ModesText(modes[1..])
  }

  function RegionText(region: Option<(u16, u16)>): seq<byte> {
    match region
    case None => []
    case Some((top, bottom)) => CSI + Joined([top, bottom]) + ['r' as int]
  }

  function OscText(code: char, payload: Option<seq<byte>>): seq<byte>
    requires '0' <= code <= '9'
  {
    match payload
    case None => []
    case Some(text) => OSC + [code as int, SEMICOLON] + text + [BEL]
  }

  const SGR_RESET: seq<byte> := CSI + ['0' as int, 'm' as int]

  /** The bytes that re-establish a visual state on a cold terminal. */
  function Serialized(v: Visual): seq<byte> {
    SGR_RESET + (SgrText(v.sgr) + (ModesText(v.modes)
      + (RegionText(v.region) + (OscText('7', v.cwd) + OscText('2', v.title)))))
  }

  /** A screen clear becomes this base of a purged ring. */
  const CLEAR_HOME: seq<byte> := CSI + ['2' as int, 'J' as int] + (CSI + ['H' as int])

  // ---------------------------------------------------------------- parser

  function Saturated(n: nat): u16 {
    if n < 0x1_0000 then n else 0xffff
  }

  predicate IsDigit(b: byte) {
    '0' as int <= b <= '9' as int
  }

  /** A decimal parameter: its value, and what follows it. */
  function ReadDecimal(s: seq<byte>, acc: u16): (r: (u16, seq<byte>))
    ensures |r.1| <= |s|
  {
    if s != [] && IsDigit(s[0]) then ReadDecimal(s[1..], Saturated(10 * acc + (s[0] - '0' as int)))
    else (acc, s)
  }

  /** The parameters of a control sequence, separated by semicolons; an empty one is 0. */
  function ReadParams(s: seq<byte>): (r: (seq<seq<u16>>, seq<byte>))
    ensures |r.1| <= |s|
    decreases |s|
  {
    var (n, rest) := ReadDecimal(s, 0);
    if rest != [] && rest[0] == SEMICOLON then
      var (ps, rest') := ReadParams(rest[1..]);
      ([[n]] + ps, rest')
    else ([[n]], rest)
  }

  /** A control string up to its BEL: its first field, the other ones, and what follows. */
  datatype Fields = Fields(first: seq<byte>, more: seq<seq<byte>>, rest: seq<byte>)

  /** None when the string is not closed or holds another control. */
  function ReadFields(s: seq<byte>): (r: Option<Fields>)
    ensures r.Some? ==> |r.value.rest| < |s|
  {
    if s == [] then None
    else if s[0] == BEL then Some(Fields([], [], s[1..]))
    else if s[0] < 0x20 then None
    else
      match ReadFields(s[1..])
      case None => None
      case Some(f) =>
        if s[0] == SEMICOLON then Some(Fields([], [f.first] + f.more, f.rest))
        else Some(f.(first := [s[0]] + f.first))
  }

  /** One control function at the front, if there is one. */
  function ReadControl(s: seq<byte>): (r: Option<(Callback, seq<byte>)>)
    ensures r.Some? ==> |r.value.1| < |s|
  {
    if |s| < 3 || s[0] != ESC then None
    else if s[1] == '[' as int then
      var private := s[2] == '?' as int;
      var (params, rest) := ReadParams(if private then s[3..] else s[2..]);
      if rest != [] && 0x40 <= rest[0] <= 0x7e then
        Some((Csi(params, if private then ['?' as int] else [], rest[0]), rest[1..]))
      else None
    else if s[1] == ']' as int then
      match ReadFields(s[2..])
      case None => None
      case Some(f) => Some((Osc([f.first] + f.more), f.rest))
    else None
  }

  function Interpret(s: seq<byte>): seq<Callback>
    decreases |s|
  {
    match ReadControl(s)
    case None => []
    case Some((cb, rest)) => [cb] + Interpret(rest)
  }

  /** The visual state a terminal in state `v` reaches on these bytes. */
  function Restored(v: Visual, s: seq<byte>): Visual {
    VisualFold(v, Interpret(s))
  }

  // ------------------------------------------------------------ round trip

  predicate NoDigitAhead(s: seq<byte>) {
    s == [] || !IsDigit(s[0])
  }

  lemma {:induction false} DecimalReadBack(n: u16, rest: seq<byte>)
    ensures ReadDecimal(Decimal(n) + rest, 0) == ReadDecimal(rest, n)
    decreases n
  {
    var d: byte := '0' as int + n % 10;
    var s := [d] + rest;
    assert s[1..] == rest;
    if n >= 10 {
      DecimalReadBack(n / 10, s);
      assert Decimal(n) + rest == Decimal(n / 10) + s;
      assert ReadDecimal(s, n / 10) == ReadDecimal(rest, n);
    }
  }

  function Singletons(ps: seq<u16>): seq<seq<u16>> {
    seq(|ps|, i requires 0 <= i < |ps| => [ps[i]])
  }

  lemma {:induction false} FlattenSingletons(ps: seq<u16>)
    ensures Flatten(Singletons(ps)) == ps
  {
    if ps != [] {
      FlattenSingletons(Init(ps));
      assert Init(Singletons(ps)) == Singletons(Init(ps));
    }
  }

  /** One parameter and its separator are read back; then the rest is read. */
  lemma ParamReadBack(n: u16, more: seq<byte>)
    ensures var (ps, rest) := ReadParams(more);
            ReadParams(Decimal(n) + ([SEMICOLON] + more)) == ([[n]] + ps, rest)
  {
    var tail := [SEMICOLON] + more;
    DecimalReadBack(n, tail);
    hide Decimal;
    assert ReadDecimal(tail, n) == (n, tail);
    assert tail[1..] == more;
  }

  lemma LastParamReadBack(n: u16, rest: seq<byte>)
    requires NoDigitAhead(rest) && (rest == [] || rest[0] != SEMICOLON)
    ensures ReadParams(Decimal(n) + rest) == ([[n]], rest)
  {
    DecimalReadBack(n, rest);
    hide Decimal;
    assert ReadDecimal(rest, n) == (n, rest);
  }

  lemma {:induction false} ParamsReadBack(ps: seq<u16>, rest: seq<byte>)
    requires ps != [] && NoDigitAhead(rest) && (rest == [] || rest[0] != SEMICOLON)
    ensures ReadParams(Joined(ps) + rest) == (Singletons(ps), rest)
  {
    hide ReadParams, Decimal;
    if |ps| == 1 {
      LastParamReadBack(ps[0], rest);
      assert Singletons(ps) == [[ps[0]]];
    } else {
      var more := Joined(ps[1..]) + rest;
      assert Joined(ps) + rest == Decimal(ps[0]) + ([SEMICOLON] + more);
      hide Joined;
      ParamReadBack(ps[0], more);
      ParamsReadBack(ps[1..], rest);
      assert Singletons(ps) == [[ps[0]]] + Singletons(ps[1..]);
    }
  }

  lemma JoinedStartsWithDigit(ps: seq<u16>)
    requires ps != []
    ensures Joined(ps) != [] && IsDigit(Joined(ps)[0])
  {
    DecimalStartsWithDigit(ps[0]);
  }

  lemma {:induction false} DecimalStartsWithDigit(n: nat)
    ensures Decimal(n) != [] && IsDigit(Decimal(n)[0])
  {
    if n >= 10 {
      DecimalStartsWithDigit(n / 10);
    }
  }

  /** One printed control function: a control sequence, or a control string with a one-digit code. */
  datatype Control =
    | Sequence(private: bool, ps: seq<u16>, final: byte)
    | Str(code: char, text: seq<byte>)

  predicate GoodControl(c: Control) {
    match c
    case Sequence(_, _, final) => 0x40 <= final <= 0x7e
    case Str(code, text) => '0' <= code <= '9' && CleanField(text)
  }

  function Mark(private: bool): seq<byte> {
    if private then ['?' as int] else []
  }

  function ControlText(c: Control): seq<byte> {
    match c
    case Sequence(private, ps, final) => CSI + Mark(private) + Joined(ps) + [final]
    case Str(code, text) => if '0' <= code <= '9' then OscText(code, Some(text)) else []
  }

  /** What it is read as; without a parameter it has the one parameter 0. */
  function ControlCall(c: Control): Callback {
    match c
    case Sequence(private, ps, final) => Csi(if ps == [] then [[0]] else Singletons(ps), Mark(private), final)
    case Str(code, text) => Osc([[if code < 128 as char then code as int else 0], text])
  }

  lemma NoParamsReadBack(final: byte, rest: seq<byte>)
    requires 0x40 <= final <= 0x7e
    ensures Joined([]) == []
    ensures ReadParams([final] + rest) == ([[0]], [final] + rest)
  {
  }

  lemma BodyReadBack(ps: seq<u16>, final: byte, rest: seq<byte>)
    requires 0x40 <= final <= 0x7e
    ensures var body := Joined(ps) + ([final] + rest);
            && body != [] && body[0] != '?' as int
            && ReadParams(body) == (if ps == [] then [[0]] else Singletons(ps), [final] + rest)
  {
    var tail := [final] + rest;
    if ps == [] {
      NoParamsReadBack(final, rest);
      assert Joined(ps) + tail == tail;
    } else {
      JoinedStartsWithDigit(ps);
      ParamsReadBack(ps, tail);
      assert (Joined(ps) + tail)[0] == Joined(ps)[0];
    }
    hide Joined, ReadParams;
  }

  lemma SequenceReadBack(private: bool, ps: seq<u16>, final: byte, rest: seq<byte>)
    requires 0x40 <= final <= 0x7e
    ensures var c := Sequence(private, ps, final);
            ReadControl(ControlText(c) + rest) == Some((ControlCall(c), rest))
  {
    hide Joined, ReadParams, ReadFields, Singletons;
    var c := Sequence(private, ps, final);
    var tail := [final] + rest;
    var body := Joined(ps) + tail;
    var s := CSI + (Mark(private) + body);
    BodyReadBack(ps, final, rest);
    assert ControlText(c) + rest == s;
    assert s[2..] == Mark(private) + body;
    assert if private then s[3..] == body else s[2..] == body;
    assert private <==> s[2] == '?' as int;
    assert tail[0] == final && tail[1..] == rest;
  }

  lemma {:induction false} FieldReadBack(text: seq<byte>, rest: seq<byte>)
    requires CleanField(text)
    ensures ReadFields(text + [BEL] + rest) == Some(Fields(text, [], rest))
  {
    var s := text + [BEL] + rest;
    if text == [] {
      assert s == [BEL] + rest;
    } else {
      FieldReadBack(text[1..], rest);
      assert s[1..] == text[1..] + [BEL] + rest;
      assert [text[0]] + text[1..] == text;
    }
  }

  /** A character that ends no field goes to its front; a separator ends it. */
  lemma FieldStep(b: byte, s: seq<byte>)
    requires b >= 0x20 && ReadFields(s).Some?
    ensures var f := ReadFields(s).value;
            ReadFields([b] + s) == Some(if b == SEMICOLON then Fields([], [f.first] + f.more, f.rest)
                                        else Fields([b] + f.first, f.more, f.rest))
  {
    assert ([b] + s)[1..] == s;
  }

  lemma StrFields(code: byte, text: seq<byte>, rest: seq<byte>)
    requires code >= 0x20 && code != SEMICOLON && CleanField(text)
    ensures ReadFields([code] + ([SEMICOLON] + (text + [BEL] + rest))) == Some(Fields([code], [text], rest))
  {
    var body := text + [BEL] + rest;
    FieldReadBack(text, rest);
    FieldStep(SEMICOLON, body);
    FieldStep(code, [SEMICOLON] + body);
    hide ReadFields;
    assert [code] + [] == [code] && [text] + [] == [text];
  }

  lemma StrReadBack(code: char, text: seq<byte>, rest: seq<byte>)
    requires '0' <= code <= '9' && CleanField(text)
    ensures ReadControl(OscText(code, Some(text)) + rest) == Some((Osc([[code as int], text]), rest))
  {
    hide ReadFields;
    var fields := [code as int] + ([SEMICOLON] + (text + [BEL] + rest));
    StrFields(code as int, text, rest);
    var s := OscText(code, Some(text)) + rest;
    assert s == OSC + fields;
    assert s[2..] == fields;
    assert [[code as int]] + [text] == [[code as int], text];
  }

  /** A printed control is read back as what it stands for, whatever follows it. */
  lemma ControlReadBack(c: Control, rest: seq<byte>)
    requires GoodControl(c)
    ensures Interpret(ControlText(c) + rest) == [ControlCall(c)] + Interpret(rest)
  {
    match c {
      case Sequence(private, ps, final) => SequenceReadBack(private, ps, final, rest);
      case Str(code, text) => StrReadBack(code, text, rest);
    }
    hide ControlText, ControlCall, ReadControl;
  }

  function TextOf(cs: seq<Control>): seq<byte> {
    Gather(ControlText, cs)
  }

  function CallsOf(cs: seq<Control>): seq<Callback> {
    seq(|cs|, i requires 0 <= i < |cs| => ControlCall(cs[i]))
  }

  /** Printed controls are read back as their calls. */
  lemma {:induction false} ControlsReadBack(cs: seq<Control>, rest: seq<byte>)
    requires forall c :: c in cs ==> GoodControl(c)
    ensures Interpret(TextOf(cs) + rest) == CallsOf(cs) + Interpret(rest)
  {
    hide ControlText, ControlCall, Interpret, GoodControl;
    if cs == [] {
      assert TextOf(cs) + rest == rest && CallsOf(cs) == [];
    } else {
      var front, c := Init(cs), Last(cs);
      assert c in cs;
      ControlsReadBack(front, ControlText(c) + rest);
      ControlReadBack(c, rest);
      assert TextOf(cs) + rest == TextOf(front) + (ControlText(c) + rest);
      assert CallsOf(cs) == CallsOf(front) + [ControlCall(c)];
    }
  }

  // ------------------------------------------------ a state as controls

  function ModeControls(modes: seq<u16>): seq<Control> {
    seq(|modes|, i requires 0 <= i < |modes| => Sequence(true, [modes[i]], 'h' as int))
  }

  function SgrControls(sgr: seq<u16>): seq<Control> {
    if sgr == [] then [] else [Sequence(false, sgr, 'm' as int)]
  }

  function RegionControls(region: Option<(u16, u16)>): seq<Control> {
    if region == None then [] else [Sequence(false, [region.value.0, region.value.1], 'r' as int)]
  }

  function StrControls(code: char, payload: Option<seq<byte>>): seq<Control> {
    if payload == None then [] else [Str(code, payload.value)]
  }

  const RESET := Sequence(false, [0], 'm' as int)

  /** The controls that a serialisation consists of. */
  function Controls(v: Visual): seq<Control> {
    [RESET] + SgrControls(v.sgr) + ModeControls(v.modes) + RegionControls(v.region)
      + StrControls('7', v.cwd) + StrControls('2', v.title)
  }

  const CLEAR_CONTROLS := [Sequence(false, [2], 'J' as int), Sequence(false, [], 'H' as int)]

  lemma TextOfOne(c: Control)
    ensures TextOf([c]) == ControlText(c)
  {
    hide ControlText;
    GatherSnoc(ControlText, [], c);
    assert [] + [c] == [c];
  }

  lemma TextConcat(a: seq<Control>, b: seq<Control>)
    ensures TextOf(a + b) == TextOf(a) + TextOf(b)
  {
    GatherConcat(ControlText, a, b);
  }

  lemma {:induction false} ModesTextIsControls(modes: seq<u16>)
    ensures ModesText(modes) == TextOf(ModeControls(modes))
    decreases |modes|
  {
    if modes != [] {
      var c := Sequence(true, [modes[0]], 'h' as int);
      ModesTextIsControls(modes[1..]);
      assert ModeControls(modes) == [c] + ModeControls(modes[1..]);
      TextConcat([c], ModeControls(modes[1..]));
      TextOfOne(c);
      assert ControlText(c) == ModeText(modes[0]);
    }
  }

  lemma OptionalTextIsControls(v: Visual)
    ensures SgrText(v.sgr) == TextOf(SgrControls(v.sgr))
    ensures RegionText(v.region) == TextOf(RegionControls(v.region))
    ensures OscText('7', v.cwd) == TextOf(StrControls('7', v.cwd))
    ensures OscText('2', v.title) == TextOf(StrControls('2', v.title))
  {
    hide Joined;
    if v.sgr != [] {
      TextOfOne(SgrControls(v.sgr)[0]);
      assert CSI + [] == CSI;
    }
    if v.region != None {
      TextOfOne(RegionControls(v.region)[0]);
      assert CSI + [] == CSI;
    }
    if v.cwd != None {
      TextOfOne(Str('7', v.cwd.value));
    }
    if v.title != None {
      TextOfOne(Str('2', v.title.value));
    }
  }

  /** The printer prints those controls. */
  lemma SerializedIsControls(v: Visual)
    ensures Serialized(v) == TextOf(Controls(v))
    ensures CLEAR_HOME + Serialized(v) == TextOf(CLEAR_CONTROLS + Controls(v))
  {
    hide SgrText, ModesText, RegionText, OscText;
    ModesTextIsControls(v.modes);
    OptionalTextIsControls(v);
    ClearIsControls();
    hide TextOf, ControlText;
    var c1 := [RESET] + SgrControls(v.sgr);
    var c2 := c1 + ModeControls(v.modes);
    var c3 := c2 + RegionControls(v.region);
    var c4 := c3 + StrControls('7', v.cwd);
    TextConcat([RESET], SgrControls(v.sgr));
    TextConcat(c1, ModeControls(v.modes));
    TextConcat(c2, RegionControls(v.region));
    TextConcat(c3, StrControls('7', v.cwd));
    TextConcat(c4, StrControls('2', v.title));
    TextConcat(CLEAR_CONTROLS, Controls(v));
  }

  lemma ClearIsControls()
    ensures TextOf([RESET]) == SGR_RESET
    ensures TextOf(CLEAR_CONTROLS) == CLEAR_HOME
  {
    TextOfOne(RESET);
    assert CSI + [] == CSI;
    var clear, home := Sequence(false, [2], 'J' as int), Sequence(false, [], 'H' as int);
    TextOfOne(clear);
    TextOfOne(home);
    TextConcat([clear], [home]);
    assert CLEAR_CONTROLS == [clear] + [home];
    assert CSI + [] + [] == CSI;
    hide TextOf;
  }

  lemma ControlsAreGood(v: Visual)
    requires WellFormed(v)
    ensures forall c :: c in CLEAR_CONTROLS + Controls(v) ==> GoodControl(c)
  {
  }

  // -------------------------------------------------- what they restore

  lemma {:induction false} ModeCallsFold(v: Visual, modes: seq<u16>)
    requires v.modes == [] && Ascending(modes)
    ensures VisualFold(v, CallsOf(ModeControls(modes))) == v.(modes := modes)
    decreases |modes|
  {
    hide VisualFold, CallsOf, VisualAfter;
    if modes == [] {
      FoldNone(v);
      assert v == v.(modes := modes);
    } else {
      var front, code := Init(modes), Last(modes);
      var c := Sequence(true, [code], 'h' as int);
      assert ModeControls(modes) == ModeControls(front) + [c] && modes == front + [code];
      ModeCallsFold(v, front);
      FoldsConcat(v, ModeControls(front), [c]);
      ModeCallFolds(v.(modes := front), code);
    }
  }

  lemma FoldNone(v: Visual)
    ensures VisualFold(v, CallsOf([])) == v
  {
  }

  lemma ModeCallFolds(v: Visual, code: u16)
    requires Ascending(v.modes + [code])
    ensures VisualFold(v, CallsOf([Sequence(true, [code], 'h' as int)])) == v.(modes := v.modes + [code])
  {
    var c := Sequence(true, [code], 'h' as int);
    assert CallsOf([c]) == [ControlCall(c)];
    FoldOne(v, ControlCall(c));
    InsertAtEnd(v.modes, code);
    SetOneMode(v.modes, code);
    hide VisualFold, SetModes, InsertMode;
  }

  lemma SetOneMode(modes: seq<u16>, code: u16)
    ensures SetModes(modes, Singletons([code]), true) == InsertMode(modes, code)
  {
    assert Singletons([code]) == [[code]] && Init([[code]]) == [];
  }

  lemma FoldOne(v: Visual, cb: Callback)
    ensures VisualFold(v, [cb]) == VisualAfter(v, cb)
  {
    assert Init([cb]) == [];
  }

  lemma SgrCallsFold(v: Visual, sgr: seq<u16>)
    requires v.sgr == [] && sgr != [0]
    ensures VisualFold(v, CallsOf([RESET])) == v
    ensures VisualFold(v, CallsOf(SgrControls(sgr))) == v.(sgr := sgr)
  {
    FlattenSingletons([0]);
    FlattenSingletons(sgr);
    assert CallsOf([RESET]) == [ControlCall(RESET)];
    FoldOne(v, ControlCall(RESET));
    if sgr != [] {
      assert CallsOf(SgrControls(sgr)) == [ControlCall(SgrControls(sgr)[0])];
      FoldOne(v, ControlCall(SgrControls(sgr)[0]));
    } else {
      assert v == v.(sgr := sgr);
    }
    hide Flatten, VisualFold;
  }

  lemma RegionCallsFold(v: Visual, region: Option<(u16, u16)>)
    requires v.region == None && region != Some((0, 0))
    ensures VisualFold(v, CallsOf(RegionControls(region))) == v.(region := region)
  {
    if region != None {
      var c := RegionControls(region)[0];
      assert CallsOf(RegionControls(region)) == [ControlCall(c)];
      FoldOne(v, ControlCall(c));
    } else {
      assert v == v.(region := region);
    }
  }

  lemma StrCallsFold(v: Visual, code: char, payload: Option<seq<byte>>)
    requires code == '7' || code == '2'
    ensures VisualFold(v, CallsOf(StrControls(code, payload))) ==
            if payload == None then v
            else if code == '7' then v.(cwd := payload)
            else v.(title := payload)
  {
    if payload != None {
      var c := Str(code, payload.value);
      assert CallsOf(StrControls(code, payload)) == [ControlCall(c)];
      FoldOne(v, ControlCall(c));
    }
  }

  lemma CallsConcat(a: seq<Control>, b: seq<Control>)
    ensures CallsOf(a + b) == CallsOf(a) + CallsOf(b)
  {
  }

  lemma FoldsConcat(v: Visual, a: seq<Control>, b: seq<Control>)
    ensures VisualFold(v, CallsOf(a + b)) == VisualFold(VisualFold(v, CallsOf(a)), CallsOf(b))
  {
    CallsConcat(a, b);
    VisualFoldConcat(v, CallsOf(a), CallsOf(b));
  }

  /** The controls of a state, applied to a fresh one, make that state. */
  lemma ControlsRestore(v: Visual)
    requires WellFormed(v)
    ensures VisualFold(FRESH, CallsOf(Controls(v))) == v
  {
    hide VisualFold, CallsOf, SgrControls, ModeControls, RegionControls, StrControls;
    var c1 := [RESET] + SgrControls(v.sgr);
    var c2 := c1 + ModeControls(v.modes);
    var c3 := c2 + RegionControls(v.region);
    var c4 := c3 + StrControls('7', v.cwd);
    var v1 := FRESH.(sgr := v.sgr);
    var v2 := v1.(modes := v.modes);
    var v3 := v2.(region := v.region);
    var v4 := if v.cwd == None then v3 else v3.(cwd := v.cwd);
    SgrCallsFold(FRESH, v.sgr);
    FoldsConcat(FRESH, [RESET], SgrControls(v.sgr));
    ModeCallsFold(v1, v.modes);
    FoldsConcat(FRESH, c1, ModeControls(v.modes));
    RegionCallsFold(v2, v.region);
    FoldsConcat(FRESH, c2, RegionControls(v.region));
    StrCallsFold(v3, '7', v.cwd);
    FoldsConcat(FRESH, c3, StrControls('7', v.cwd));
    StrCallsFold(v4, '2', v.title);
    FoldsConcat(FRESH, c4, StrControls('2', v.title));
  }

  lemma ClearTouchesNothing()
    ensures VisualFold(FRESH, CallsOf(CLEAR_CONTROLS)) == FRESH
  {
    var clear, home := Sequence(false, [2], 'J' as int), Sequence(false, [], 'H' as int);
    assert CallsOf(CLEAR_CONTROLS) == [ControlCall(clear)] + [ControlCall(home)];
    VisualFoldConcat(FRESH, [ControlCall(clear)], [ControlCall(home)]);
    FoldOne(FRESH, ControlCall(clear));
    FoldOne(FRESH, ControlCall(home));
  }

  /** What a prologue, of a cut and of a clear, is read as. */
  lemma PrologueIsRead(v: Visual)
    requires WellFormed(v)
    ensures Interpret(Serialized(v)) == CallsOf(Controls(v))
    ensures Interpret(CLEAR_HOME + Serialized(v)) == CallsOf(CLEAR_CONTROLS + Controls(v))
  {
    SerializedIsControls(v);
    ControlsAreGood(v);
    assert forall c :: c in Controls(v) ==> c in CLEAR_CONTROLS + Controls(v);
    hide Serialized, TextOf, CallsOf, Controls, GoodControl;
    ControlsReadBack(Controls(v), []);
    ControlsReadBack(CLEAR_CONTROLS + Controls(v), []);
    assert TextOf(Controls(v)) + [] == TextOf(Controls(v));
    assert TextOf(CLEAR_CONTROLS + Controls(v)) + [] == TextOf(CLEAR_CONTROLS + Controls(v));
    assert Interpret([]) == [];
    assert CallsOf(Controls(v)) + [] == CallsOf(Controls(v));
    assert CallsOf(CLEAR_CONTROLS + Controls(v)) + [] == CallsOf(CLEAR_CONTROLS + Controls(v));
  }

  /** Reading a printed prologue on a fresh terminal rebuilds exactly the state that was printed. */
  lemma {:induction false} PrologueRestores(v: Visual)
    requires WellFormed(v)
    ensures Restored(FRESH, Serialized(v)) == v
  {
    PrologueIsRead(v);
    ControlsRestore(v);
  }

  /** The base that a screen clear leaves behind restores the same state: clear and home touch none of it. */
  lemma {:induction false} ClearPrologueRestores(v: Visual)
    requires WellFormed(v)
    ensures Restored(FRESH, CLEAR_HOME + Serialized(v)) == v
  {
    PrologueIsRead(v);
    ClearTouchesNothing();
    ControlsRestore(v);
    hide CallsOf, Interpret, Serialized;
    FoldsConcat(FRESH, CLEAR_CONTROLS, Controls(v));
  }
}
