/** The 0x9C translation: a lone 8-bit string terminator becomes `ESC \`, a UTF-8 continuation byte stays. */
module Translate {
  import opened Bytes
  import opened Callbacks

  const C1_ST: byte := 0x9c

  predicate IsContinuation(b: byte) {
    0x80 <= b <= 0xbf
  }

  /** Number of continuation bytes that a byte read at the ground announces. */
  function Announced(b: byte): nat {
    if 0xc2 <= b <= 0xdf then 1
    else if 0xe0 <= b <= 0xef then 2
    else if 0xf0 <= b <= 0xf4 then 3
    else 0
  }

  /** Output so far, and the number of continuation bytes still owed to the last lead. */
  datatype Progress = Progress(out: seq<byte>, owed: nat)

  function Rewritten(owed: nat, b: byte): seq<byte> {
    if b == C1_ST && owed == 0 then [ESC, BACKSLASH] else [b]
  }

  function OwedAfter(owed: nat, b: byte): nat {
    if owed > 0 && IsContinuation(b) then owed - 1 else Announced(b)
  }

  function TranslateFrom(owed: nat, raw: seq<byte>): Progress {
    if raw == [] then Progress([], owed)
    else
      var p := TranslateFrom(owed, Init(raw));
      Progress(p.out + Rewritten(p.owed, Last(raw)), OwedAfter(p.owed, Last(raw)))
  }

  /** Everything a fresh scanner passes on to its parser. */
  function Translated(raw: seq<byte>): Progress {
    TranslateFrom(0, raw)
  }

  /** Splitting the input anywhere changes nothing: the owed count carries all there is to carry. */
  lemma {:induction false} TranslateConcat(owed: nat, a: seq<byte>, b: seq<byte>)
    ensures var p := TranslateFrom(owed, a);
            var q := TranslateFrom(p.owed, b);
            TranslateFrom(owed, a + b) == Progress(p.out + q.out, q.owed)
  {
    if b == [] {
      assert a + b == a;
    } else {
      TranslateConcat(owed, a, Init(b));
      assert Init(a + b) == a + Init(b);
    }
  }

  // ------------------------------------------------ which bytes are owed

  /** Position `i` lies in the reach of an earlier lead, with nothing but continuation bytes in between. */
  ghost predicate InReach(raw: seq<byte>, j: nat, i: nat)
    requires i <= |raw|
  {
    j < i && i - j <= Announced(raw[j]) && forall k :: j < k < i ==> IsContinuation(raw[k])
  }

  ghost predicate OwedToLead(raw: seq<byte>, i: nat)
    requires i <= |raw|
  {
    exists j: nat :: InReach(raw, j, i)
  }

  /** The counter is right: it is positive exactly when the next position is in reach of a lead, and says how far. */
  lemma {:induction false} OwedIsReach(raw: seq<byte>)
    ensures OwedToLead(raw, |raw|) <==> Translated(raw).owed > 0
    ensures forall j: nat :: InReach(raw, j, |raw|) ==> Translated(raw).owed == Announced(raw[j]) + 1 - (|raw| - j)
    decreases |raw|
  {
    if raw != [] {
      var n := |raw| - 1;
      var before, b := Init(raw), Last(raw);
      OwedIsReach(before);
      var owed := Translated(before).owed;
      forall j: nat | InReach(raw, j, |raw|)
        ensures Translated(raw).owed == Announced(raw[j]) + 1 - (|raw| - j)
      {
        if j < n {
          assert InReach(before, j, n);
        }
      }
      if Translated(raw).owed > 0 {
        if owed > 0 && IsContinuation(b) {
          var j: nat :| InReach(before, j, n);
          assert InReach(raw, j, |raw|);
        } else {
          assert InReach(raw, n, |raw|);
        }
      }
    }
  }

  function Rewrites(raw: seq<byte>): nat {
    if raw == [] then 0
    else Rewrites(Init(raw)) + if Last(raw) == C1_ST && Translated(Init(raw)).owed == 0 then 1 else 0
  }

  /** What each byte becomes, stated by position: only a 0x9C that no lead claims is rewritten. */
  ghost function Expected(raw: seq<byte>, i: nat): seq<byte>
    requires i < |raw|
  {
    if raw[i] == C1_ST && !OwedToLead(raw, i) then [ESC, BACKSLASH] else [raw[i]]
  }

  lemma ReachOfPrefix(raw: seq<byte>, n: nat, i: nat)
    requires i <= n <= |raw|
    ensures OwedToLead(raw, i) <==> OwedToLead(raw[..n], i)
  {
    if OwedToLead(raw, i) {
      var j: nat :| InReach(raw, j, i);
      assert InReach(raw[..n], j, i);
    }
    if OwedToLead(raw[..n], i) {
      var j: nat :| InReach(raw[..n], j, i);
      assert InReach(raw, j, i);
    }
  }

  /** The output is the concatenation of the expected pieces, and is longer by the number of rewrites. */
  lemma {:induction false} TranslatedIsExpected(raw: seq<byte>)
    ensures Translated(raw).out == Flatten(seq(|raw|, i requires 0 <= i < |raw| => Expected(raw, i)))
    ensures |Translated(raw).out| == |raw| + Rewrites(raw)
    decreases |raw|
  {
    if raw != [] {
      var n := |raw| - 1;
      var before := Init(raw);
      TranslatedIsExpected(before);
      OwedIsReach(before);
      forall i | 0 <= i <= n
        ensures OwedToLead(raw, i) <==> OwedToLead(before, i)
      {
        ReachOfPrefix(raw, n, i);
      }
      var pieces := seq(|raw|, i requires 0 <= i < |raw| => Expected(raw, i));
      assert Init(pieces) == seq(n, i requires 0 <= i < n => Expected(before, i));
      assert Last(pieces) == Rewritten(Translated(before).owed, Last(raw));
    }
  }

  /** What a byte becomes passes unchanged from the same state. */
  lemma RewrittenPasses(owed: nat, b: byte)
    ensures TranslateFrom(owed, Rewritten(owed, b)) == Progress(Rewritten(owed, b), OwedAfter(owed, b))
  {
    assert TranslateFrom(owed, []) == Progress([], owed);
    assert Init([b]) == [];
    if b == C1_ST && owed == 0 {
      assert Init([ESC]) == [] && Init([ESC, BACKSLASH]) == [ESC];
      assert TranslateFrom(owed, [ESC]) == Progress([ESC], 0);
    }
  }

  lemma TranslateStep(raw: seq<byte>)
    requires raw != []
    ensures var p := Translated(Init(raw));
            Translated(raw) == Progress(p.out + Rewritten(p.owed, Last(raw)), OwedAfter(p.owed, Last(raw)))
  {
  }

  /** Translating twice is translating once. */
  lemma {:induction false} TranslateIdempotent(raw: seq<byte>)
    ensures Translated(Translated(raw).out) == Translated(raw)
    decreases |raw|
  {
    if raw != [] {
      TranslateStep(raw);
      hide TranslateFrom, Rewritten, OwedAfter;
      var p := Translated(Init(raw));
      TranslateIdempotent(Init(raw));
      TranslateConcat(0, p.out, Rewritten(p.owed, Last(raw)));
      RewrittenPasses(p.owed, Last(raw));
    }
  }

  // -------------------------------------------------- well-formed UTF-8

  /** Length of the UTF-8 character at the front by the syntax of section 4 of RFC 3629; 0 if there is none. */
  function CharLength(s: seq<byte>): (n: nat)
    ensures n <= |s|
  {
    if s == [] then 0
    else if s[0] <= 0x7f then 1
    else if |s| >= 2 && 0xc2 <= s[0] <= 0xdf && IsContinuation(s[1]) then 2
    else if |s| >= 3 && IsContinuation(s[2])
      && (|| (s[0] == 0xe0 && 0xa0 <= s[1] <= 0xbf)
          || (0xe1 <= s[0] <= 0xec && IsContinuation(s[1]))
          || (s[0] == 0xed && 0x80 <= s[1] <= 0x9f)
          || (0xee <= s[0] <= 0xef && IsContinuation(s[1]))) then 3
    else if |s| >= 4 && IsContinuation(s[2]) && IsContinuation(s[3])
      && (|| (s[0] == 0xf0 && 0x90 <= s[1] <= 0xbf)
          || (0xf1 <= s[0] <= 0xf3 && IsContinuation(s[1]))
          || (s[0] == 0xf4 && 0x80 <= s[1] <= 0x8f)) then 4
    else 0
  }

  /** A byte announces continuation bytes exactly if it leads a character of that many and one. */
  lemma LeadsAnnounce(b: byte, n: nat)
    requires n > 0
    ensures Announced(b) == n <==> exists s: seq<byte> :: Leads(b, n, s)
  {
    if Announced(b) == n {
      var second := if b == 0xe0 then 0xa0 else if b == 0xf0 then 0x90 else 0x80;
      var s: seq<byte> := [b, second, 0x80, 0x80][..n + 1];
      assert Leads(b, n, s);
    }
  }

  predicate Leads(b: byte, n: nat, s: seq<byte>) {
    |s| == n + 1 && CharLength(s) == |s| && s[0] == b
  }

  predicate Utf8(s: seq<byte>)
    decreases |s|
  {
    s == [] || (CharLength(s) > 0 && Utf8(s[CharLength(s)..]))
  }

  lemma CharPasses(s: seq<byte>)
    requires CharLength(s) == |s| && s != []
    ensures Translated(s) == Progress(s, 0)
  {
    assert TranslateFrom(0, []) == Progress([], 0);
    assert s[..1] == [s[0]] && Init(s[..1]) == [];
    assert Translated(s[..1]) == Progress(s[..1], Announced(s[0]));
    assert s == s[..|s|];
    if |s| >= 2 {
      assert Init(s[..2]) == s[..1];
      assert Translated(s[..2]) == Progress(s[..2], Announced(s[0]) - 1);
      if |s| >= 3 {
        assert Init(s[..3]) == s[..2];
        assert Translated(s[..3]) == Progress(s[..3], Announced(s[0]) - 2);
        if |s| >= 4 {
          assert Init(s[..4]) == s[..3];
        }
      }
    }
  }

  lemma TranslatedNothing()
    ensures Translated([]) == Progress([], 0)
  {
  }

  lemma CharStandsAlone(s: seq<byte>)
    ensures CharLength(s[..CharLength(s)]) == CharLength(s)
  {
  }

  /** Well-formed UTF-8 text passes unchanged and leaves nothing owed. */
  lemma {:induction false} Utf8Passes(s: seq<byte>)
    requires Utf8(s)
    ensures Translated(s) == Progress(s, 0)
    decreases |s|
  {
    hide CharLength, TranslateFrom;
    if s == [] {
      TranslatedNothing();
    } else {
      var n := CharLength(s);
      CharStandsAlone(s);
      CharPasses(s[..n]);
      Utf8Passes(s[n..]);
      TranslateConcat(0, s[..n], s[n..]);
      assert s == s[..n] + s[n..];
    }
  }
}
