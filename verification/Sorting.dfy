/** A stable sort by a key, as Python's `sorted` does it. */
module Sorting {

  ghost predicate InOrder<T>(key: T -> int, xs: seq<T>) {
    forall i, j :: 0 <= i < j < |xs| ==> key(xs[i]) <= key(xs[j])
  }

  ghost predicate Increasing<T>(key: T -> int, xs: seq<T>) {
    forall i, j :: 0 <= i < j < |xs| ==> key(xs[i]) < key(xs[j])
  }

  /** Inserts behind the elements with the same key. */
  function Insert<T>(key: T -> int, xs: seq<T>, x: T): (r: seq<T>)
    ensures multiset(r) == multiset(xs) + multiset{x}
  {
    if xs == [] || key(x) < key(xs[0]) then [x] + xs
    else
      assert xs == [xs[0]] + xs[1..];
      [xs[0]] + Insert(key, xs[1..], x)
  }

  function SortBy<T>(key: T -> int, xs: seq<T>): (r: seq<T>)
    ensures multiset(r) == multiset(xs)
    decreases |xs|
  {
    if xs == [] then []
    else
      var n := |xs| - 1;
      assert xs == xs[..n] + [xs[n]];
      Insert(key, SortBy(key, xs[..n]), xs[n])
  }

  lemma ConsInOrder<T>(key: T -> int, x: T, xs: seq<T>)
    requires InOrder(key, xs) && forall y :: y in xs ==> key(x) <= key(y)
    ensures InOrder(key, [x] + xs)
  {
    var all := [x] + xs;
    forall i, j | 0 <= i < j < |all| ensures key(all[i]) <= key(all[j]) {
      assert all[j] == xs[j - 1] && (i > 0 ==> all[i] == xs[i - 1]);
    }
  }

  lemma {:induction false} InsertKeepsOrder<T>(key: T -> int, xs: seq<T>, x: T)
    requires InOrder(key, xs)
    ensures InOrder(key, Insert(key, xs, x))
  {
    if xs == [] || key(x) < key(xs[0]) {
      forall y | y in xs ensures key(x) <= key(y) {
        var i :| 0 <= i < |xs| && xs[i] == y;
        assert key(xs[0]) <= key(xs[i]);
      }
      ConsInOrder(key, x, xs);
    } else {
      InsertKeepsOrder(key, xs[1..], x);
      var r := Insert(key, xs[1..], x);
      forall y | y in r ensures key(xs[0]) <= key(y) {
        assert y in multiset(r);
        if y != x {
          assert y in multiset(xs[1..]);
          var i :| 0 <= i < |xs[1..]| && xs[1..][i] == y;
          assert y == xs[i + 1];
        }
      }
      ConsInOrder(key, xs[0], r);
    }
  }

  lemma {:induction false} InsertAtEnd<T>(key: T -> int, xs: seq<T>, x: T)
    requires forall y :: y in xs ==> key(y) <= key(x)
    ensures Insert(key, xs, x) == xs + [x]
  {
    if xs != [] {
      assert xs[0] in xs;
      InsertAtEnd(key, xs[1..], x);
      assert xs == [xs[0]] + xs[1..];
    }
  }

  lemma {:induction false} SortSorts<T>(key: T -> int, xs: seq<T>)
    ensures InOrder(key, SortBy(key, xs))
    decreases |xs|
  {
    if xs != [] {
      SortSorts(key, xs[..|xs| - 1]);
      InsertKeepsOrder(key, SortBy(key, xs[..|xs| - 1]), xs[|xs| - 1]);
    }
  }

  lemma PrefixInOrder<T>(key: T -> int, xs: seq<T>, n: nat)
    requires InOrder(key, xs) && n <= |xs|
    ensures InOrder(key, xs[..n])
    ensures n < |xs| ==> forall y :: y in xs[..n] ==> key(y) <= key(xs[n])
  {
  }

  lemma {:induction false} SortKeepsSorted<T>(key: T -> int, xs: seq<T>)
    requires InOrder(key, xs)
    ensures SortBy(key, xs) == xs
    decreases |xs|
  {
    if xs != [] {
      var n := |xs| - 1;
      var front, last := xs[..n], xs[n];
      PrefixInOrder(key, xs, n);
      SortKeepsSorted(key, front);
      assert SortBy(key, xs) == Insert(key, front, last);
      InsertAtEnd(key, front, last);
      assert front + [last] == xs;
    }
  }

  lemma SameHead<T>(key: T -> int, log: seq<T>, xs: seq<T>)
    requires Increasing(key, log) && InOrder(key, xs) && multiset(log) == multiset(xs) && log != []
    ensures xs != [] && log[0] == xs[0]
  {
    assert log[0] in multiset(log);
    assert xs != [];
    assert log[0] in multiset(xs) && xs[0] in multiset(log);
    var i :| 0 <= i < |xs| && xs[i] == log[0];
    var j :| 0 <= j < |log| && log[j] == xs[0];
    assert key(xs[0]) <= key(xs[i]) && key(log[0]) <= key(log[j]);
  }

  lemma SameTails<T>(a: seq<T>, b: seq<T>)
    requires a != [] && b != [] && a[0] == b[0] && multiset(a) == multiset(b)
    ensures multiset(a[1..]) == multiset(b[1..])
  {
    assert a == [a[0]] + a[1..] && b == [a[0]] + b[1..];
    assert multiset(a[1..]) == multiset(a) - multiset{a[0]};
  }

  lemma TailsOrdered<T>(key: T -> int, log: seq<T>, xs: seq<T>)
    requires Increasing(key, log) && InOrder(key, xs) && log != [] && xs != []
    ensures Increasing(key, log[1..]) && InOrder(key, xs[1..])
  {
  }

  /** Elements with pairwise different keys have one order only. */
  lemma {:induction false} OrderIsUnique<T>(key: T -> int, log: seq<T>, xs: seq<T>)
    requires Increasing(key, log) && InOrder(key, xs) && multiset(log) == multiset(xs)
    ensures log == xs
    decreases |log|
  {
    if log == [] {
      assert |multiset(xs)| == |xs|;
    } else {
      SameHead(key, log, xs);
      SameTails(log, xs);
      TailsOrdered(key, log, xs);
      OrderIsUnique(key, log[1..], xs[1..]);
      assert log == [log[0]] + log[1..] && xs == [log[0]] + xs[1..];
    }
  }

  lemma SortedSameSize<T>(key: T -> int, xs: seq<T>)
    ensures |SortBy(key, xs)| == |xs|
  {
    assert |multiset(SortBy(key, xs))| == |SortBy(key, xs)| && |multiset(xs)| == |xs|;
  }
}
