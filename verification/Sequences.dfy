/** Options, and maps and filters over sequences. */
module Sequences {

  datatype Option<T> = None | Some(value: T)

  /** The results of f that are there, in order. */
  function Collect<A, B>(f: A -> Option<B>, xs: seq<A>): seq<B> {
    if xs == [] then []
    else (if f(xs[0]).Some? then [f(xs[0]).value] else []) + Collect(f, xs[1..])
  }

  lemma {:induction false} CollectConcat<A, B>(f: A -> Option<B>, xs: seq<A>, ys: seq<A>)
    ensures Collect(f, xs + ys) == Collect(f, xs) + Collect(f, ys)
  {
    if xs == [] {
      assert xs + ys == ys;
    } else {
      var head := if f(xs[0]).Some? then [f(xs[0]).value] else [];
      assert (xs + ys)[0] == xs[0] && (xs + ys)[1..] == xs[1..] + ys;
      CollectConcat(f, xs[1..], ys);
      assert Collect(f, xs) == head + Collect(f, xs[1..]);
      assert Collect(f, xs + ys) == head + Collect(f, xs[1..] + ys);
    }
  }

  /** One more element: its result is appended, or nothing is. */
  lemma CollectNext<A, B>(f: A -> Option<B>, xs: seq<A>, i: nat, done: seq<B>, y: Option<B>)
    requires i < |xs| && y == f(xs[i]) && done == Collect(f, xs[..i])
    ensures Collect(f, xs[..i + 1]) == if y.Some? then done + [y.value] else done
  {
    assert xs[..i + 1] == xs[..i] + [xs[i]];
    CollectConcat(f, xs[..i], [xs[i]]);
    assert [xs[i]][1..] == [];
  }

  lemma {:induction false} CollectAll<A, B>(f: A -> Option<B>, xs: seq<A>, ys: seq<B>)
    requires |ys| == |xs| && forall i :: 0 <= i < |xs| ==> f(xs[i]) == Some(ys[i])
    ensures Collect(f, xs) == ys
  {
    if xs != [] {
      CollectAll(f, xs[1..], ys[1..]);
      assert ys == [ys[0]] + ys[1..];
    }
  }

  function Map<A, B>(f: A -> B, xs: seq<A>): seq<B> {
    seq(|xs|, i requires 0 <= i < |xs| => f(xs[i]))
  }

  lemma MapAt<A, B>(f: A -> B, xs: seq<A>, i: nat)
    requires i < |xs|
    ensures |Map(f, xs)| == |xs| && Map(f, xs)[i] == f(xs[i])
  {
  }

  lemma MapOne<A, B>(f: A -> B, x: A)
    ensures Map(f, [x]) == [f(x)]
  {
  }

  lemma MapCons<A, B>(f: A -> B, x: A, xs: seq<A>)
    ensures Map(f, [x] + xs) == [f(x)] + Map(f, xs)
    ensures Map(f, [x] + xs)[1..] == Map(f, xs)
  {
    assert forall i :: 0 <= i < |xs| ==> ([x] + xs)[i + 1] == xs[i];
    assert Map(f, [x] + xs) == [f(x)] + Map(f, xs);
  }

  lemma MapNext<A, B>(f: A -> B, xs: seq<A>, i: nat)
    requires i < |xs|
    ensures Map(f, xs[..i + 1]) == Map(f, xs[..i]) + [f(xs[i])]
  {
  }

  /** Two mapped sequences agree exactly if their heads and their tails do. */
  lemma MapFirst<A, B>(f: A -> B, x: A, xs: seq<A>, y: A, ys: seq<A>)
    ensures Map(f, [x] + xs) == Map(f, [y] + ys) <==> f(x) == f(y) && Map(f, xs) == Map(f, ys)
  {
    var us, vs := Map(f, [x] + xs), Map(f, [y] + ys);
    MapCons(f, x, xs);
    MapCons(f, y, ys);
    if us == vs {
      assert f(x) == us[0] == vs[0] == f(y);
      assert Map(f, xs) == us[1..] == vs[1..] == Map(f, ys);
    }
  }
}
