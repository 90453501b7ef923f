/** What the tracked visual state is: of each part, what the last callback that sets it says. */
module TrackingTheorems {
  import opened Bytes
  import opened Callbacks
  import opened Prologue
  import opened Sink
  import opened Scanner
  import opened ReplayTheorems
  import opened RereadTheorems

  // --------------------------------------------------- the last of a kind

  /** The last callback of a kind is one of those in `says`. */
  ghost predicate LastSays(kind: Callback -> bool, says: Callback -> bool, cbs: seq<Callback>) {
    exists i :: 0 <= i < |cbs| && SaysAt(kind, says, cbs, i)
  }

  ghost predicate SaysAt(kind: Callback -> bool, says: Callback -> bool, cbs: seq<Callback>, i: nat)
    requires i < |cbs|
  {
    kind(cbs[i]) && says(cbs[i]) && forall j :: i < j < |cbs| ==> !kind(cbs[j])
  }

  lemma LastSaysStep(kind: Callback -> bool, says: Callback -> bool, cbs: seq<Callback>)
    requires cbs != []
    ensures LastSays(kind, says, cbs) <==>
            if kind(Last(cbs)) then says(Last(cbs)) else LastSays(kind, says, Init(cbs))
  {
    var n := |cbs| - 1;
    if LastSays(kind, says, cbs) {
      var i :| 0 <= i < |cbs| && SaysAt(kind, says, cbs, i);
      if i < n {
        assert SaysAt(kind, says, Init(cbs), i);
      }
    }
    if kind(Last(cbs)) {
      if says(Last(cbs)) {
        assert SaysAt(kind, says, cbs, n);
      }
    } else if LastSays(kind, says, Init(cbs)) {
      var i :| 0 <= i < n && SaysAt(kind, says, Init(cbs), i);
      assert SaysAt(kind, says, cbs, i);
    }
  }

  // ------------------------------------------------------- what sets what

  /** An OSC 0, 1 or 2 with a text. */
  predicate SetsTitle(cb: Callback) {
    cb.Osc? && |cb.fields| > 1
    && (cb.fields[0] == ['0' as int] || cb.fields[0] == ['1' as int] || cb.fields[0] == ['2' as int])
  }

  /** An OSC 7 with a text. */
  predicate SetsCwd(cb: Callback) {
    cb.Osc? && |cb.fields| > 1 && cb.fields[0] == ['7' as int]
  }

  function TextIs(text: seq<byte>): Callback -> bool {
    (cb: Callback) => cb.Osc? && |cb.fields| > 1 && cb.fields[1] == text
  }

  predicate IsPlain(cb: Callback) {
    cb.Csi? && (cb.intermediates == [] || cb.intermediates[0] != '?' as int)
  }

  predicate SetsSgr(cb: Callback) {
    IsPlain(cb) && cb.action == 'm' as int
  }

  /** Its parameters and subparameters, in order, are these. */
  function RenditionIs(ps: seq<u16>): Callback -> bool {
    (cb: Callback) => cb.Csi? && Flatten(cb.params) == ps
  }

  predicate SetsRegion(cb: Callback) {
    IsPlain(cb) && cb.action == 'r' as int
  }

  /** The parameter at `k` begins with `n`; a missing one counts as 0. */
  predicate ParamIs(params: seq<seq<u16>>, k: nat, n: u16) {
    if k < |params| && params[k] != [] then params[k][0] == n else n == 0
  }

  function RegionIs(top: u16, bottom: u16): Callback -> bool {
    (cb: Callback) => cb.Csi? && ParamIs(cb.params, 0, top) && ParamIs(cb.params, 1, bottom)
  }

  /** A private CSI h or l one of whose parameters begins with the code. */
  function Switches(code: u16): Callback -> bool {
    (cb: Callback) =>
      && cb.Csi? && cb.intermediates != [] && cb.intermediates[0] == '?' as int
      && (cb.action == 'h' as int || cb.action == 'l' as int)
      && exists k :: 0 <= k < |cb.params| && cb.params[k] != [] && cb.params[k][0] == code
  }

  predicate SwitchesOn(cb: Callback) {
    cb.Csi? && cb.action == 'h' as int
  }

  // ---------------------------------------------------------- one callback

  lemma {:induction false} SetModesIs(m: seq<u16>, params: seq<seq<u16>>, on: bool, code: u16)
    requires Ascending(m)
    ensures Ascending(SetModes(m, params, on))
    ensures code in SetModes(m, params, on) <==>
            if exists k :: 0 <= k < |params| && params[k] != [] && params[k][0] == code then on else code in m
  {
    if params != [] {
      hide Ascending;
      SetModesIs(m, Init(params), on, code);
      if Last(params) != [] {
        SetModeSpec(SetModes(m, Init(params), on), Last(params)[0], on);
      }
      assert params == Init(params) + [Last(params)];
      if k :| 0 <= k < |Init(params)| && Init(params)[k] != [] && Init(params)[k][0] == code {
        assert params[k] != [] && params[k][0] == code;
      }
      if Last(params) != [] && Last(params)[0] == code {
        assert params[|params| - 1] != [] && params[|params| - 1][0] == code;
      }
    }
  }

  lemma ModesStep(v: Visual, cb: Callback, code: u16)
    requires Ascending(v.modes)
    ensures Ascending(VisualAfter(v, cb).modes)
    ensures code in VisualAfter(v, cb).modes <==> if Switches(code)(cb) then SwitchesOn(cb) else code in v.modes
  {
    if cb.Csi? {
      SetModesIs(v.modes, cb.params, true, code);
      SetModesIs(v.modes, cb.params, false, code);
    }
    hide Ascending, SetModes;
  }

  lemma TitleStep(v: Visual, cb: Callback, x: seq<byte>)
    ensures VisualAfter(v, cb).title == Some(x) <==> if SetsTitle(cb) then TextIs(x)(cb) else v.title == Some(x)
  {
    hide SetModes, SgrOf, RegionOf;
  }

  lemma CwdStep(v: Visual, cb: Callback, x: seq<byte>)
    ensures VisualAfter(v, cb).cwd == Some(x) <==> if SetsCwd(cb) then TextIs(x)(cb) else v.cwd == Some(x)
  {
    hide SetModes, SgrOf, RegionOf;
  }

  lemma SgrStep(v: Visual, cb: Callback, ps: seq<u16>)
    ensures ps != [] && ps != [0] ==>
              (VisualAfter(v, cb).sgr == ps <==> if SetsSgr(cb) then RenditionIs(ps)(cb) else v.sgr == ps)
    ensures VisualAfter(v, cb).sgr == [0] ==> v.sgr == [0]
  {
    hide SetModes, RegionOf, Flatten;
  }

  lemma RegionStep(v: Visual, cb: Callback, t: u16, b: u16)
    ensures t != 0 || b != 0 ==>
              (VisualAfter(v, cb).region == Some((t, b)) <==>
                 if SetsRegion(cb) then RegionIs(t, b)(cb) else v.region == Some((t, b)))
    ensures VisualAfter(v, cb).region == Some((0, 0)) ==> v.region == Some((0, 0))
  {
    hide SetModes, SgrOf;
    if cb.Csi? {
      assert ParamAt(cb.params, 0) == t <==> ParamIs(cb.params, 0, t);
      assert ParamAt(cb.params, 1) == b <==> ParamIs(cb.params, 1, b);
    }
  }

  // ------------------------------------------------------------ whole runs

  /**
   * Each part of the state that callbacks make of a fresh one is what the last one of its kind says: the text of
   * the last title and of the last cwd, the parameters of the last SGR but for a bare 0, the region of the last
   * one but for 0;0; and a private mode is set exactly if the last switch of it was on.
   */
  ghost predicate TrackedIsLast(v: Visual, cbs: seq<Callback>) {
    && (forall x: seq<byte> :: v.title == Some(x) <==> LastSays(SetsTitle, TextIs(x), cbs))
    && (forall x: seq<byte> :: v.cwd == Some(x) <==> LastSays(SetsCwd, TextIs(x), cbs))
    && v.sgr != [0]
    && (forall ps: seq<u16> :: ps != [] && ps != [0] ==> (v.sgr == ps <==> LastSays(SetsSgr, RenditionIs(ps), cbs)))
    && v.region != Some((0, 0))
    && (forall t: u16, b: u16 :: t != 0 || b != 0 ==>
          (v.region == Some((t, b)) <==> LastSays(SetsRegion, RegionIs(t, b), cbs)))
    && Ascending(v.modes)
    && (forall code: u16 :: code in v.modes <==> LastSays(Switches(code), SwitchesOn, cbs))
  }

  lemma TrackedStep(v: Visual, cbs: seq<Callback>)
    requires cbs != [] && TrackedIsLast(v, Init(cbs))
    ensures TrackedIsLast(VisualAfter(v, Last(cbs)), cbs)
  {
    hide VisualAfter, LastSays, SetsTitle, SetsCwd, SetsSgr, SetsRegion, SwitchesOn, Ascending;
    hide TextIs, RenditionIs, RegionIs, Switches;
    var w := VisualAfter(v, Last(cbs));
    SgrStep(v, Last(cbs), []);
    RegionStep(v, Last(cbs), 0, 0);
    forall x: seq<byte>
      ensures w.title == Some(x) <==> LastSays(SetsTitle, TextIs(x), cbs)
      ensures w.cwd == Some(x) <==> LastSays(SetsCwd, TextIs(x), cbs)
    {
      TitleStep(v, Last(cbs), x);
      CwdStep(v, Last(cbs), x);
      LastSaysStep(SetsTitle, TextIs(x), cbs);
      LastSaysStep(SetsCwd, TextIs(x), cbs);
    }
    forall ps: seq<u16> | ps != [] && ps != [0]
      ensures w.sgr == ps <==> LastSays(SetsSgr, RenditionIs(ps), cbs)
    {
      SgrStep(v, Last(cbs), ps);
      LastSaysStep(SetsSgr, RenditionIs(ps), cbs);
    }
    forall t: u16, b: u16 | t != 0 || b != 0
      ensures w.region == Some((t, b)) <==> LastSays(SetsRegion, RegionIs(t, b), cbs)
    {
      RegionStep(v, Last(cbs), t, b);
      LastSaysStep(SetsRegion, RegionIs(t, b), cbs);
    }
    ModesStep(v, Last(cbs), 0);
    forall code: u16
      ensures code in w.modes <==> LastSays(Switches(code), SwitchesOn, cbs)
    {
      ModesStep(v, Last(cbs), code);
      LastSaysStep(Switches(code), SwitchesOn, cbs);
    }
  }

  lemma {:induction false} FoldIsLast(cbs: seq<Callback>)
    ensures TrackedIsLast(VisualFold(FRESH, cbs), cbs)
  {
    if cbs != [] {
      hide VisualAfter, TrackedIsLast;
      FoldIsLast(Init(cbs));
      TrackedStep(VisualFold(FRESH, Init(cbs)), cbs);
    }
  }

  /** That is what the scanner tracks, for every parser, behind every input. */
  lemma {:induction false} ScannerTracksLast<P>(step: ParserStep<P>, start: P, input: seq<byte>)
    ensures TrackedIsLast(Segment(step, start, input).sink.visual, AllCalls(step, start, input))
  {
    hide Segment, TrackedIsLast, Read, VisualFold;
    VisualOfRun(step, start, input);
    FoldIsLast(AllCalls(step, start, input));
  }

  /** A prologue makes its own rendition of any: whatever a terminal's last SGR was, the printed one follows. */
  lemma {:induction false} PrologueOverridesSgr(before: Visual, v: Visual)
    requires WellFormed(v)
    ensures Restored(before, Serialized(v)).sgr == v.sgr
  {
    hide Interpret, Serialized, VisualFold, CallsOf, SgrControls, ModeControls, RegionControls, StrControls;
    PrologueIsRead(v);
    var c1 := [RESET] + SgrControls(v.sgr);
    var c2 := c1 + ModeControls(v.modes);
    var c3 := c2 + RegionControls(v.region);
    var c4 := c3 + StrControls('7', v.cwd);
    FoldsConcat(before, [RESET], SgrControls(v.sgr));
    ResetFolds(before);
    SgrCallsFold(before.(sgr := []), v.sgr);
    FoldsConcat(before, c1, ModeControls(v.modes));
    FoldsConcat(before, c2, RegionControls(v.region));
    FoldsConcat(before, c3, StrControls('7', v.cwd));
    FoldsConcat(before, c4, StrControls('2', v.title));
    OthersSetNoSgr(v);
    NoSgrStays(VisualFold(before, CallsOf(c1)), ModeControls(v.modes));
    NoSgrStays(VisualFold(before, CallsOf(c2)), RegionControls(v.region));
    NoSgrStays(VisualFold(before, CallsOf(c3)), StrControls('7', v.cwd));
    NoSgrStays(VisualFold(before, CallsOf(c4)), StrControls('2', v.title));
  }

  predicate NoSgr(cs: seq<Control>) {
    forall i :: 0 <= i < |cs| ==> cs[i].Str? || cs[i].final != 'm' as int
  }

  lemma OthersSetNoSgr(v: Visual)
    ensures NoSgr(ModeControls(v.modes)) && NoSgr(RegionControls(v.region))
    ensures NoSgr(StrControls('7', v.cwd)) && NoSgr(StrControls('2', v.title))
  {
  }

  lemma ResetFolds(v: Visual)
    ensures VisualFold(v, CallsOf([RESET])) == v.(sgr := [])
  {
    FlattenSingletons([0]);
    assert CallsOf([RESET]) == [ControlCall(RESET)];
    FoldOne(v, ControlCall(RESET));
    hide Flatten, VisualFold;
  }

  lemma {:induction false} NoSgrStays(v: Visual, cs: seq<Control>)
    requires NoSgr(cs)
    ensures VisualFold(v, CallsOf(cs)).sgr == v.sgr
  {
    if cs == [] {
      assert CallsOf(cs) == [];
    } else {
      var front, c := Init(cs), Last(cs);
      assert Last(CallsOf(cs)) == ControlCall(c) && Init(CallsOf(cs)) == CallsOf(front);
      NoSgrStays(v, front);
      hide CallsOf, SetModes;
    }
  }
}
