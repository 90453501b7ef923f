/**
 * What the terminal parser reports, and what each report does to the tracked visual state.
 * The parser itself is abstract; these are its callbacks.
 */
module Callbacks {
  import opened Bytes

  const ESC: byte := 0x1b
  const BEL: byte := 0x07
  const SEMICOLON: byte := 0x3b
  const BACKSLASH: byte := 0x5c

  datatype Callback =
    | Print
    | Execute(control: byte)
    | Hook
    | Put
    | Unhook
    | Osc(fields: seq<seq<byte>>)
    | Csi(params: seq<seq<u16>>, intermediates: seq<byte>, action: byte)
    | Esc(final: byte)

  /** The state a replay must re-establish. `modes` lists the set DEC private modes in ascending order. */
  datatype Visual = Visual(
    sgr: seq<u16>,
    modes: seq<u16>,
    region: Option<(u16, u16)>,
    cwd: Option<seq<byte>>,
    title: Option<seq<byte>>)

  const FRESH := Visual([], [], None, None, None)

  // --------------------------------------------------- DEC private modes

  ghost predicate Ascending(m: seq<u16>) {
    forall i, j :: 0 <= i < j < |m| ==> m[i] < m[j]
  }

  function InsertMode(m: seq<u16>, code: u16): seq<u16> {
    if m == [] || code < m[0] then [code] + m
    else if code == m[0] then m
    else [m[0]] + InsertMode(m[1..], code)
  }

  function RemoveMode(m: seq<u16>, code: u16): seq<u16> {
    if m == [] then []
    else if code == m[0] then m[1..]
    else [m[0]] + RemoveMode(m[1..], code)
  }

  function SetMode(m: seq<u16>, code: u16, on: bool): seq<u16> {
    if on then InsertMode(m, code) else RemoveMode(m, code)
  }

  lemma {:induction false} InsertModeSpec(m: seq<u16>, code: u16)
    requires Ascending(m)
    ensures Ascending(InsertMode(m, code))
    ensures forall c :: c in InsertMode(m, code) <==> c == code || c in m
  {
    if m == [] || code < m[0] {
      assert forall c :: c in m ==> code < c;
      AscendingCons(code, m);
    } else if code > m[0] {
      hide Ascending;
      HeadIsLeast(m);
      InsertModeSpec(m[1..], code);
      assert m == [m[0]] + m[1..];
      AscendingCons(m[0], InsertMode(m[1..], code));
    }
  }

  lemma {:induction false} RemoveModeSpec(m: seq<u16>, code: u16)
    requires Ascending(m)
    ensures Ascending(RemoveMode(m, code))
    ensures forall c :: c in RemoveMode(m, code) <==> c != code && c in m
  {
    if m != [] {
      hide Ascending;
      var tail := m[1..];
      assert m == [m[0]] + tail;
      HeadIsLeast(m);
      if code != m[0] {
        RemoveModeSpec(tail, code);
        AscendingCons(m[0], RemoveMode(tail, code));
      }
    }
  }

  lemma AscendingCons(c: u16, m: seq<u16>)
    requires Ascending(m) && forall d :: d in m ==> c < d
    ensures Ascending([c] + m)
  {
    assert forall i :: 0 <= i < |m| ==> m[i] in m;
  }

  lemma HeadIsLeast(m: seq<u16>)
    requires Ascending(m) && m != []
    ensures Ascending(m[1..])
    ensures forall c :: c in m[1..] ==> m[0] < c
  {
  }

  /** A mode update keeps the list ordered and changes the membership of that one code. */
  lemma SetModeSpec(m: seq<u16>, code: u16, on: bool)
    requires Ascending(m)
    ensures Ascending(SetMode(m, code, on))
    ensures forall c :: c in SetMode(m, code, on) <==> if c == code then on else c in m
  {
    InsertModeSpec(m, code);
    RemoveModeSpec(m, code);
  }

  lemma {:induction false} InsertAtEnd(m: seq<u16>, code: u16)
    requires Ascending(m + [code])
    ensures InsertMode(m, code) == m + [code]
  {
    if m != [] {
      assert m[0] == (m + [code])[0] && code == (m + [code])[|m|];
      assert m[1..] + [code] == (m + [code])[1..];
      InsertAtEnd(m[1..], code);
    }
  }

  // ------------------------------------------------- effect of a callback

  // The OSC codes that the scanner knows.
  const CODE_ICON_AND_TITLE: seq<byte> := ['0' as int]
  const CODE_ICON: seq<byte> := ['1' as int]
  const CODE_TITLE: seq<byte> := ['2' as int]
  const CODE_CWD: seq<byte> := ['7' as int]
  const CODE_NOTIFY: seq<byte> := ['9' as int]
  const CODE_CLIPBOARD: seq<byte> := ['5' as int, '2' as int]
  const CODE_PROMPT: seq<byte> := ['1' as int, '3' as int, '3' as int]
  const CODE_NOTIFY_RXVT: seq<byte> := ['7' as int, '7' as int, '7' as int]

  function FieldAt(fields: seq<seq<byte>>, k: nat): Option<seq<byte>> {
    if k < |fields| then Some(fields[k]) else None
  }

  /** First subparameter of parameter `k`, 0 when absent. */
  function ParamAt(params: seq<seq<u16>>, k: nat): u16 {
    if k < |params| && params[k] != [] then params[k][0] else 0
  }

  predicate IsPrivate(intermediates: seq<byte>) {
    intermediates != [] && intermediates[0] == '?' as int
  }

  predicate IsTitle(code: Option<seq<byte>>) {
    code == Some(CODE_ICON_AND_TITLE) || code == Some(CODE_ICON) || code == Some(CODE_TITLE)
  }

  function SetModes(m: seq<u16>, params: seq<seq<u16>>, on: bool): seq<u16> {
    if params == [] then m
    else
      var before := SetModes(m, Init(params), on);
      if Last(params) == [] then before else SetMode(before, Last(params)[0], on)
  }

  function SgrOf(params: seq<seq<u16>>): seq<u16> {
    if Flatten(params) == [0] then [] else Flatten(params)
  }

  function RegionOf(params: seq<seq<u16>>): Option<(u16, u16)> {
    var top, bottom := ParamAt(params, 0), ParamAt(params, 1);
    if top == 0 && bottom == 0 then None else Some((top, bottom))
  }

  /** The tracked visual state after one callback. */
  function VisualAfter(v: Visual, cb: Callback): Visual {
    match cb
    case Osc(fields) =>
      var code, text := FieldAt(fields, 0), FieldAt(fields, 1);
      if text == None then v
      else if IsTitle(code) then v.(title := text)
      else if code == Some(CODE_CWD) then v.(cwd := text)
      else v
    case Csi(params, intermediates, action) =>
      if IsPrivate(intermediates) then
        if action == 'h' as int then v.(modes := SetModes(v.modes, params, true))
        else if action == 'l' as int then v.(modes := SetModes(v.modes, params, false))
        else v
      else if action == 'm' as int then v.(sgr := SgrOf(params))
      else if action == 'r' as int then v.(region := RegionOf(params))
      else v
    case _ => v
  }

  function VisualFold(v: Visual, cbs: seq<Callback>): Visual {
    if cbs == [] then v else VisualAfter(VisualFold(v, Init(cbs)), Last(cbs))
  }

  lemma {:induction false} VisualFoldConcat(v: Visual, xs: seq<Callback>, ys: seq<Callback>)
    ensures VisualFold(v, xs + ys) == VisualFold(VisualFold(v, xs), ys)
  {
    if ys == [] {
      assert xs + ys == xs;
    } else {
      VisualFoldConcat(v, xs, Init(ys));
      assert Init(xs + ys) == xs + Init(ys);
    }
  }

  // -------------------------------------------------- reachable states

  /** An OSC payload that a terminal parser can report: no control byte, no field separator. */
  predicate CleanField(s: seq<byte>) {
    forall i :: 0 <= i < |s| ==> s[i] >= 0x20 && s[i] != SEMICOLON
  }

  predicate CleanCallback(cb: Callback) {
    cb.Osc? ==> forall i :: 0 <= i < |cb.fields| ==> CleanField(cb.fields[i])
  }

  predicate CleanCallbacks(cbs: seq<Callback>) {
    forall i :: 0 <= i < |cbs| ==> CleanCallback(cbs[i])
  }

  /** What every state that the scanner reaches satisfies. */
  ghost predicate WellFormed(v: Visual) {
    && v.sgr != [0]
    && Ascending(v.modes)
    && v.region != Some((0, 0))
    && (v.cwd.Some? ==> CleanField(v.cwd.value))
    && (v.title.Some? ==> CleanField(v.title.value))
  }

  lemma {:induction false} SetModesAscending(m: seq<u16>, params: seq<seq<u16>>, on: bool)
    requires Ascending(m)
    ensures Ascending(SetModes(m, params, on))
  {
    if params != [] {
      SetModesAscending(m, Init(params), on);
      if Last(params) != [] {
        SetModeSpec(SetModes(m, Init(params), on), Last(params)[0], on);
      }
    }
  }

  lemma CallbackKeepsWellFormed(v: Visual, cb: Callback)
    requires WellFormed(v) && CleanCallback(cb)
    ensures WellFormed(VisualAfter(v, cb))
  {
    if cb.Csi? {
      hide Ascending;
      SetModesAscending(v.modes, cb.params, true);
      SetModesAscending(v.modes, cb.params, false);
    }
  }

  lemma {:induction false} VisualStaysWellFormed(v: Visual, cbs: seq<Callback>)
    requires WellFormed(v) && CleanCallbacks(cbs)
    ensures WellFormed(VisualFold(v, cbs))
  {
    if cbs != [] {
      hide WellFormed, VisualAfter;
      VisualStaysWellFormed(v, Init(cbs));
      assert CleanCallback(cbs[|cbs| - 1]);
      CallbackKeepsWellFormed(VisualFold(v, Init(cbs)), Last(cbs));
    }
  }
}
