/** Sorting and collecting, as Python's `sorted` and comprehensions use them. */
module Sorting {
  import opened Base

  function Insert<T>(before: (T, T) -> bool, x: T, xs: seq<T>): (r: seq<T>)
    ensures multiset(r) == multiset(xs) + multiset{x}
  {
    if xs == [] || before(x, xs[0]) then [x] + xs
    else
      assert xs == [xs[0]] + xs[1..];
      [xs[0]] + Insert(before, x, xs[1..])
  }

  function Sort<T>(before: (T, T) -> bool, xs: seq<T>): (r: seq<T>)
    ensures multiset(r) == multiset(xs)
  {
    if xs == [] then []
    else
      assert xs == [xs[0]] + xs[1..];
      Insert(before, xs[0], Sort(before, xs[1..]))
  }

  ghost predicate TotalPreorder<T(!new)>(before: (T, T) -> bool) {
    && (forall x, y :: before(x, y) || before(y, x))
    && forall x, y, z :: before(x, y) && before(y, z) ==> before(x, z)
  }

  ghost predicate Sorted<T>(before: (T, T) -> bool, xs: seq<T>) {
    forall i, j | 0 <= i < j < |xs| :: before(xs[i], xs[j])
  }

  lemma {:induction false} InsertKeepsSorted<T(!new)>(before: (T, T) -> bool, x: T, xs: seq<T>)
    requires TotalPreorder(before) && Sorted(before, xs)
    ensures Sorted(before, Insert(before, x, xs))
  {
    if xs != [] && !before(x, xs[0]) {
      InsertKeepsSorted(before, x, xs[1..]);
      var r := Insert(before, x, xs[1..]);
      forall j | 0 <= j < |r| ensures before(xs[0], r[j]) {
        assert r[j] in multiset(r);
        assert r[j] == x || r[j] in xs[1..];
      }
    }
  }

  lemma {:induction false} SortSorts<T(!new)>(before: (T, T) -> bool, xs: seq<T>)
    requires TotalPreorder(before)
    ensures Sorted(before, Sort(before, xs))
  {
    if xs != [] {
      SortSorts(before, xs[1..]);
      InsertKeepsSorted(before, xs[0], Sort(before, xs[1..]));
    }
  }

  lemma HeadsAgree<T(!new)>(before: (T, T) -> bool, xs: seq<T>, ys: seq<T>)
    requires xs != [] && ys != [] && Sorted(before, xs) && Sorted(before, ys) && multiset(xs) == multiset(ys)
    requires forall x, y | x in xs && y in xs && before(x, y) && before(y, x) :: x == y
    ensures xs[0] == ys[0]
  {
    assert xs[0] in multiset(ys) && ys[0] in multiset(xs);
  }

  lemma TailFacts<T(!new)>(before: (T, T) -> bool, xs: seq<T>)
    requires xs != [] && Sorted(before, xs)
    ensures Sorted(before, xs[1..]) && multiset(xs[1..]) == multiset(xs) - multiset{xs[0]} && xs == [xs[0]] + xs[1..]
    ensures forall x | x in xs[1..] :: x in xs
  {
    assert xs == [xs[0]] + xs[1..];
  }

  /** When no two different elements tie, only one arrangement is sorted. */
  lemma {:induction false} SortedIsUnique<T(!new)>(before: (T, T) -> bool, xs: seq<T>, ys: seq<T>)
    requires Sorted(before, xs) && Sorted(before, ys) && multiset(xs) == multiset(ys)
    requires forall x, y | x in xs && y in xs && before(x, y) && before(y, x) :: x == y
    ensures xs == ys
    decreases |xs|
  {
    hide Sorted;
    assert |xs| == |multiset(xs)| == |multiset(ys)| == |ys|;
    if xs != [] {
      HeadsAgree(before, xs, ys);
      TailFacts(before, xs);
      TailFacts(before, ys);
      SortedIsUnique(before, xs[1..], ys[1..]);
    }
  }

  /** `[u for x in xs if (u := f(x)) is not None]`. */
  function Collect<T, U>(f: T -> Option<U>, xs: seq<T>): seq<U> {
    if xs == [] then []
    else (if f(xs[0]).Some? then [f(xs[0]).value] else []) + Collect(f, xs[1..])
  }

  lemma {:induction false} CollectAppends<T, U>(f: T -> Option<U>, xs: seq<T>, ys: seq<T>)
    ensures Collect(f, xs + ys) == Collect(f, xs) + Collect(f, ys)
  {
    if xs == [] {
      assert xs + ys == ys;
    } else {
      assert (xs + ys)[0] == xs[0] && (xs + ys)[1..] == xs[1..] + ys;
      CollectAppends(f, xs[1..], ys);
      var head := if f(xs[0]).Some? then [f(xs[0]).value] else [];
      assert Collect(f, xs + ys) == head + Collect(f, xs[1..] + ys);
      assert head + (Collect(f, xs[1..]) + Collect(f, ys)) == (head + Collect(f, xs[1..])) + Collect(f, ys);
    }
  }

  lemma {:induction false} CollectIff<T(!new), U>(f: T -> Option<U>, xs: seq<T>, u: U)
    ensures u in Collect(f, xs) <==> exists x :: x in xs && f(x) == Some(u)
  {
    if xs != [] {
      CollectIff(f, xs[1..], u);
      assert xs == [xs[0]] + xs[1..];
    }
  }

  lemma CollectMiddle<T, U>(f: T -> Option<U>, a: seq<T>, x: T, b: seq<T>)
    ensures multiset(Collect(f, a + [x] + b)) == multiset(Collect(f, [x] + (a + b)))
  {
    CollectAppends(f, a + [x], b);
    CollectAppends(f, a, [x]);
    CollectAppends(f, [x], a + b);
    CollectAppends(f, a, b);
  }

  lemma RemoveOne<T>(ys: seq<T>, i: nat) returns (rest: seq<T>)
    requires i < |ys|
    ensures rest == ys[..i] + ys[i + 1..] && ys == ys[..i] + [ys[i]] + ys[i + 1..]
    ensures multiset(ys) == multiset(rest) + multiset{ys[i]}
  {
    rest := ys[..i] + ys[i + 1..];
    assert ys == ys[..i] + [ys[i]] + ys[i + 1..];
  }

  /** Collecting from a rearranged list collects the same values. */
  lemma {:induction false} CollectPermutes<T, U>(f: T -> Option<U>, xs: seq<T>, ys: seq<T>)
    requires multiset(xs) == multiset(ys)
    ensures multiset(Collect(f, xs)) == multiset(Collect(f, ys))
    decreases |xs|
  {
    hide Collect;
    if xs == [] {
      assert |ys| == |multiset(ys)| == 0;
    } else {
      assert xs[0] in multiset(ys);
      var i :| 0 <= i < |ys| && ys[i] == xs[0];
      var rest := RemoveOne(ys, i);
      assert xs == [xs[0]] + xs[1..];
      assert multiset(xs[1..]) == multiset(xs) - multiset{xs[0]} == multiset(rest);
      CollectPermutes(f, xs[1..], rest);
      CollectMiddle(f, ys[..i], xs[0], ys[i + 1..]);
      CollectAppends(f, [xs[0]], rest);
      CollectAppends(f, [xs[0]], xs[1..]);
    }
  }

  ghost predicate Distinct<T>(xs: seq<T>) {
    forall i, j | 0 <= i < j < |xs| :: xs[i] != xs[j]
  }

  lemma {:induction false} DistinctCounts<T>(xs: seq<T>, x: T)
    requires Distinct(xs)
    ensures multiset(xs)[x] <= 1
  {
    if xs != [] {
      assert xs == [xs[0]] + xs[1..];
      DistinctCounts(xs[1..], x);
      assert xs[0] !in xs[1..];
    }
  }

  lemma DistinctPermutes<T(!new)>(xs: seq<T>, ys: seq<T>)
    requires Distinct(xs) && multiset(xs) == multiset(ys)
    ensures Distinct(ys)
  {
    forall i, j | 0 <= i < j < |ys| ensures ys[i] != ys[j] {
      DistinctCounts(xs, ys[i]);
      assert ys == ys[..j] + [ys[j]] + ys[j + 1..];
      assert ys[i] in ys[..j];
    }
  }
}
