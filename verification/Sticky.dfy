/** The visual state as the scanner keeps it: setters, and a serialisation cached until the next change. */
module Sticky {
  import opened Bytes
  import opened Callbacks
  import opened Prologue

  lemma {:induction false} JoinedSnoc(ps: seq<u16>, p: u16)
    ensures Joined(ps + [p]) == (if ps == [] then [] else Joined(ps) + [SEMICOLON]) + Decimal(p)
  {
    hide Decimal;
    if ps == [] {
      assert ps + [p] == [p];
    } else {
      JoinedSnoc(ps[1..], p);
      assert (ps + [p])[1..] == ps[1..] + [p];
      if |ps| > 1 {
        assert Joined(ps) == Decimal(ps[0]) + [SEMICOLON] + Joined(ps[1..]);
      }
    }
  }

  lemma JoinedNothing()
    ensures Joined([]) == []
  {
  }

  lemma {:induction false} ModesTextSnoc(modes: seq<u16>, code: u16)
    ensures ModesText(modes + [code]) == ModesText(modes) + ModeText(code)
  {
    if modes == [] {
      assert modes + [code] == [code] && ModesText([code][1..]) == [];
    } else {
      ModesTextSnoc(modes[1..], code);
      assert (modes + [code])[1..] == modes[1..] + [code];
    }
  }

  class StickyState {
    var sgr: seq<u16>
    var modes: seq<u16>
    var region: Option<(u16, u16)>
    var cwd: Option<seq<byte>>
    var title: Option<seq<byte>>
    var cache: Option<seq<byte>>

    ghost function View(): Visual
      reads this
    {
      Visual(sgr, modes, region, cwd, title)
    }

    /** A cached serialisation is always that of the current state. */
    ghost predicate Valid()
      reads this
    {
      cache.Some? ==> cache.value == Serialized(View())
    }

    constructor ()
      ensures Valid() && View() == FRESH
    {
      sgr, modes, region, cwd, title, cache := [], [], None, None, None, None;
    }

    method SetSgr(params: seq<u16>)
      modifies this
      ensures Valid() && View() == old(View()).(sgr := params)
    {
      sgr, cache := params, None;
    }

    method SetDecMode(code: u16, on: bool)
      modifies this
      ensures Valid() && View() == old(View()).(modes := SetMode(old(modes), code, on))
    {
      if on {
        modes := InsertMode(modes, code);
      } else {
        modes := RemoveMode(modes, code);
      }
      cache := None;
    }

    method SetScrollRegion(r: Option<(u16, u16)>)
      modifies this
      ensures Valid() && View() == old(View()).(region := r)
    {
      region, cache := r, None;
    }

    method SetCwd(text: seq<byte>)
      modifies this
      ensures Valid() && View() == old(View()).(cwd := Some(text))
    {
      cwd, cache := Some(text), None;
    }

    method SetTitle(text: seq<byte>)
      modifies this
      ensures Valid() && View() == old(View()).(title := Some(text))
    {
      title, cache := Some(text), None;
    }

    /** The current state's serialisation, whatever setters and serialisations came before. */
    method Serialize() returns (out: seq<byte>)
      requires Valid()
      modifies this`cache
      ensures Valid() && out == Serialized(View())
    {
      if cache.Some? {
        return cache.value;
      }
      out := BuildSerialized();
      cache := Some(out);
    }

    method BuildSerialized() returns (out: seq<byte>)
      ensures out == Serialized(View())
    {
      hide Decimal, SgrText, ModesText, RegionText, OscText;
      var sgrText := BuildSgr();
      var modesText := BuildModes();
      var regionText := BuildRegion();
      var cwdText := BuildOsc('7', cwd);
      var titleText := BuildOsc('2', title);
      out := SGR_RESET + sgrText + modesText + regionText + cwdText + titleText;
    }

    method BuildSgr() returns (out: seq<byte>)
      ensures out == SgrText(sgr)
    {
      hide Decimal, Joined;
      if sgr == [] {
        return [];
      }
      out := CSI;
      assert Joined([]) == [] by { JoinedNothing(); }
      for i := 0 to |sgr|
        invariant out == CSI + Joined(sgr[..i])
      {
        JoinedSnoc(sgr[..i], sgr[i]);
        assert sgr[..i + 1] == sgr[..i] + [sgr[i]];
        if i > 0 {
          out := out + [SEMICOLON];
        }
        out := out + Decimal(sgr[i]);
      }
      assert sgr[..|sgr|] == sgr;
      out := out + ['m' as int];
    }

    /** Modes come out in ascending order of their codes. */
    method BuildModes() returns (out: seq<byte>)
      ensures out == ModesText(modes)
    {
      hide Decimal;
      out := [];
      for i := 0 to |modes|
        invariant out == ModesText(modes[..i])
      {
        ModesTextSnoc(modes[..i], modes[i]);
        assert modes[..i + 1] == modes[..i] + [modes[i]];
        out := out + CSI + ['?' as int];
        out := out + Decimal(modes[i]);
        out := out + ['h' as int];
      }
      assert modes[..|modes|] == modes;
    }

    method BuildRegion() returns (out: seq<byte>)
      ensures out == RegionText(region)
    {
      hide Decimal;
      if region.None? {
        return [];
      }
      var (top, bottom) := region.value;
      JoinedSnoc([top], bottom);
      assert [top] + [bottom] == [top, bottom];
      out := CSI + Decimal(top);
      out := out + [SEMICOLON] + Decimal(bottom);
      out := out + ['r' as int];
    }

    static method BuildOsc(code: char, payload: Option<seq<byte>>) returns (out: seq<byte>)
      requires '0' <= code <= '9'
      ensures out == OscText(code, payload)
    {
      if payload.None? {
        return [];
      }
      out := OSC + [code as int, SEMICOLON];
      out := out + payload.value;
      out := out + [BEL];
    }
  }
}
