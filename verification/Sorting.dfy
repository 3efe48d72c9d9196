/** The sort the standard libraries provide (sort.Slice, sort.Strings, Python's sorted),
    by any total preorder.  Callers rely on its contract alone: some sorted permutation. */
module Sorting {
  ghost predicate TotalPreorder<T(!new)>(leq: (T, T) -> bool) {
    && (forall x, y :: leq(x, y) || leq(y, x))
    && (forall x, y, z :: leq(x, y) && leq(y, z) ==> leq(x, z))
  }

  ghost predicate SortedBy<T>(leq: (T, T) -> bool, xs: seq<T>) {
    forall i, j :: 0 <= i < j < |xs| ==> leq(xs[i], xs[j])
  }

  method Sort<T(!new)>(xs: seq<T>, leq: (T, T) -> bool) returns (ys: seq<T>)
    requires TotalPreorder(leq)
    ensures multiset(ys) == multiset(xs) && SortedBy(leq, ys)
  {
    ys := [];
    for n := 0 to |xs|
      invariant multiset(ys) == multiset(xs[..n]) && SortedBy(leq, ys)
    {
      var i := 0;
      while i < |ys| && leq(ys[i], xs[n])
        invariant 0 <= i <= |ys|
        invariant i > 0 ==> leq(ys[i - 1], xs[n])
      {
        i := i + 1;
      }
      InsertKeepsSorted(leq, ys, i, xs[n]);
      InsertAddsOne(ys, i, xs[n]);
      assert xs[..n + 1] == xs[..n] + [xs[n]];
      hide SortedBy, TotalPreorder;
      ys := Insert(ys, i, xs[n]);
    }
    assert xs[..|xs|] == xs;
  }

  function Insert<T>(ys: seq<T>, i: nat, x: T): seq<T>
    requires i <= |ys|
  {
    ys[..i] + [x] + ys[i..]
  }

  lemma InsertAddsOne<T>(ys: seq<T>, i: nat, x: T)
    requires i <= |ys|
    ensures multiset(Insert(ys, i, x)) == multiset(ys) + multiset{x}
  {
    assert ys == ys[..i] + ys[i..];
  }

  lemma InsertKeepsSorted<T(!new)>(leq: (T, T) -> bool, ys: seq<T>, i: nat, x: T)
    requires TotalPreorder(leq) && SortedBy(leq, ys) && i <= |ys|
    requires i > 0 ==> leq(ys[i - 1], x)
    requires i < |ys| ==> !leq(ys[i], x)
    ensures SortedBy(leq, Insert(ys, i, x))
  {
    var zs := Insert(ys, i, x);
    forall j, k | 0 <= j < k < |zs| ensures leq(zs[j], zs[k]) {
      InsertAt(ys, i, x, j);
      InsertAt(ys, i, x, k);
      if j == i {
        LeqAbove(leq, ys, i, x, k - 1);
      } else if k == i {
        LeqBelow(leq, ys, i, x, j);
      }
    }
  }

  lemma InsertAt<T>(ys: seq<T>, i: nat, x: T, k: nat)
    requires i <= |ys| && k <= |ys|
    ensures Insert(ys, i, x)[k] == if k < i then ys[k] else if k == i then x else ys[k - 1]
  {
  }

  lemma LeqBelow<T(!new)>(leq: (T, T) -> bool, ys: seq<T>, i: nat, x: T, j: nat)
    requires TotalPreorder(leq) && SortedBy(leq, ys) && j < i <= |ys| && leq(ys[i - 1], x)
    ensures leq(ys[j], x)
  {
    assert j < i - 1 ==> leq(ys[j], ys[i - 1]);
  }

  lemma LeqAbove<T(!new)>(leq: (T, T) -> bool, ys: seq<T>, i: nat, x: T, k: nat)
    requires TotalPreorder(leq) && SortedBy(leq, ys) && i <= k < |ys| && !leq(ys[i], x)
    ensures leq(x, ys[k])
  {
    assert leq(x, ys[i]);
    assert i < k ==> leq(ys[i], ys[k]);
  }

  lemma CountOfTwo<T>(xs: seq<T>, i: nat, j: nat)
    requires i < j < |xs| && xs[i] == xs[j]
    ensures multiset(xs)[xs[i]] >= 2
  {
    assert xs == xs[..i] + [xs[i]] + xs[i + 1..j] + [xs[j]] + xs[j + 1..];
  }

  lemma SameMembers<T>(xs: seq<T>, ys: seq<T>, i: nat)
    requires multiset(xs) == multiset(ys) && i < |xs|
    ensures |xs| == |ys| && exists j :: 0 <= j < |ys| && ys[j] == xs[i]
  {
    assert |multiset(xs)| == |xs| && |multiset(ys)| == |ys|;
    assert xs[i] in multiset(ys);
  }

  lemma TailMultiset<T>(xs: seq<T>)
    requires xs != []
    ensures multiset(xs[1..]) == multiset(xs) - multiset{xs[0]}
  {
    assert xs == [xs[0]] + xs[1..];
  }

  // Where ties mean equality, the sorted permutation is unique.
  lemma {:induction false} SortedIsUnique<T(!new)>(leq: (T, T) -> bool, xs: seq<T>, ys: seq<T>)
    requires forall x, y :: leq(x, y) && leq(y, x) ==> x == y
    requires multiset(xs) == multiset(ys) && SortedBy(leq, xs) && SortedBy(leq, ys)
    ensures xs == ys
  {
    if xs == [] || ys == [] {
      assert |multiset(xs)| == |xs| && |multiset(ys)| == |ys|;
    } else {
      SameMembers(xs, ys, 0);
      SameMembers(ys, xs, 0);
      assert xs[0] == ys[0];
      TailMultiset(xs);
      TailMultiset(ys);
      SortedIsUnique(leq, xs[1..], ys[1..]);
    }
  }
}
