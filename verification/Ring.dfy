/** The chunked store: storage only; the scanner decides when to cut and when to purge. */
module Ring {
  import opened Bytes

  datatype Chunk = Chunk(prologue: seq<byte>, data: seq<byte>)

  function AllData(chunks: seq<Chunk>): seq<byte> {
    Gather((c: Chunk) => c.data, chunks)
  }

  /** Index of the first chunk that a replay of `want` chunks selects; at least one is selected. */
  function ReplayStart(n: nat, want: nat): (start: nat)
    ensures n > 0 ==> 1 <= n - start <= (if want == 0 then 1 else want)
    ensures start > 0 ==> n - start == if want == 0 then 1 else want
  {
    var w := if want == 0 then 1 else want;
    if n <= w then 0 else n - w
  }

  function ReplayOf(chunks: seq<Chunk>, want: nat): seq<byte>
    requires chunks != []
  {
    var start := ReplayStart(|chunks|, want);
    chunks[start].prologue + AllData(chunks[start..])
  }

  class ChunkRing {
    var chunks: seq<Chunk>
    const watermark: nat

    ghost predicate Valid()
      reads this
    {
      chunks != []
    }

    constructor (watermark: nat)
      ensures Valid() && this.watermark == watermark && chunks == [Chunk([], [])]
    {
      this.watermark := watermark;
      chunks := [Chunk([], [])];
    }

    method Append(bytes: seq<byte>)
      requires Valid()
      modifies this
      ensures Valid()
      ensures chunks == Init(old(chunks)) + [Chunk(Last(old(chunks)).prologue, Last(old(chunks)).data + bytes)]
    {
      var open := Last(chunks);
      chunks := chunks[|chunks| - 1 := open.(data := open.data + bytes)];
    }

    predicate ShouldCut()
      requires Valid()
      reads this
    {
      |Last(chunks).data| >= watermark
    }

    method Cut(prologue: seq<byte>)
      modifies this
      ensures Valid() && chunks == old(chunks) + [Chunk(prologue, [])]
    {
      chunks := chunks + [Chunk(prologue, [])];
    }

    method Purge(prologue: seq<byte>)
      modifies this
      ensures Valid() && chunks == [Chunk(prologue, [])]
    {
      chunks := [Chunk(prologue, [])];
    }

    method Replay(want: nat) returns (out: seq<byte>)
      requires Valid()
      ensures out == ReplayOf(chunks, want)
      ensures 1 <= |chunks| - ReplayStart(|chunks|, want) <= (if want == 0 then 1 else want)
    {
      var n := |chunks|;
      var most := if want > 1 then want else 1;
      var start := if n > most then n - most else 0;
      var selected := chunks[start..];
      out := selected[0].prologue;
      for i := 0 to |selected|
        invariant out == selected[0].prologue + AllData(selected[..i])
      {
        assert Init(selected[..i + 1]) == selected[..i];
        out := out + selected[i].data;
      }
      assert selected[..|selected|] == selected;
    }
  }
}
