/** Machine integers, optional values and the few sequence facts every other module needs. */
module Bytes {

  type byte = x: int | 0 <= x < 0x100
  type u16 = x: int | 0 <= x < 0x1_0000
  type u32 = x: int | 0 <= x < 0x1_0000_0000

  datatype Option<+T> = None | Some(value: T)

  function Last<T>(s: seq<T>): T
    requires s != []
  {
    s[|s| - 1]
  }

  function Init<T>(s: seq<T>): seq<T>
    requires s != []
  {
    s[..|s| - 1]
  }

  /** What all elements yield, in order. */
  function Gather<A, B>(f: A -> seq<B>, xs: seq<A>): seq<B> {
    if xs == [] then [] else Gather(f, Init(xs)) + f(Last(xs))
  }

  lemma GatherSnoc<A, B>(f: A -> seq<B>, xs: seq<A>, x: A)
    ensures Gather(f, xs + [x]) == Gather(f, xs) + f(x)
  {
    assert Init(xs + [x]) == xs;
  }

  lemma {:induction false} GatherConcat<A, B>(f: A -> seq<B>, xs: seq<A>, ys: seq<A>)
    ensures Gather(f, xs + ys) == Gather(f, xs) + Gather(f, ys)
  {
    if ys == [] {
      assert xs + ys == xs;
    } else {
      calc {
        Gather(f, xs + ys);
        { assert Init(xs + ys) == xs + Init(ys) && Last(xs + ys) == Last(ys); }
        Gather(f, xs + Init(ys)) + f(Last(ys));
        { GatherConcat(f, xs, Init(ys)); }
        Gather(f, xs) + Gather(f, Init(ys)) + f(Last(ys));
        { hide Gather; }
        Gather(f, xs) + (Gather(f, Init(ys)) + f(Last(ys)));
      }
    }
  }

  /** Concatenation of all pieces, in order. */
  function Flatten<T>(xs: seq<seq<T>>): seq<T> {
    Gather((x: seq<T>) => x, xs)
  }

  lemma FlattenSnoc<T>(xs: seq<seq<T>>, x: seq<T>)
    ensures Flatten(xs + [x]) == Flatten(xs) + x
  {
    GatherSnoc((y: seq<T>) => y, xs, x);
  }

  lemma FlattenCons<T>(x: seq<T>, xs: seq<seq<T>>)
    ensures Flatten([x] + xs) == x + Flatten(xs)
  {
    GatherConcat((y: seq<T>) => y, [x], xs);
    FlattenSnoc([], x);
  }
}
