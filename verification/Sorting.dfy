/**
 The library sort: stable, by a comparison that need not tell every two elements apart.
 */
module Sorting {
  import opened Sequences

  ghost predicate TotalPreorder<T(!new)>(leq: (T, T) -> bool)
  {
    (forall a, b :: leq(a, b) || leq(b, a)) &&
    (forall a, b, c :: leq(a, b) && leq(b, c) ==> leq(a, c))
  }

  predicate Sorted<T>(xs: seq<T>, leq: (T, T) -> bool)
  {
    forall i, j :: 0 <= i < j < |xs| ==> leq(xs[i], xs[j])
  }

  function Insert<T>(x: T, xs: seq<T>, leq: (T, T) -> bool): (r: seq<T>)
    ensures |r| == |xs| + 1
  {
    if xs == [] then [x]
    else if leq(x, xs[0]) then [x] + xs
    else [xs[0]] + Insert(x, xs[1..], leq)
  }

  function Sort<T>(xs: seq<T>, leq: (T, T) -> bool): (r: seq<T>)
    ensures |r| == |xs|
  {
    if xs == [] then [] else Insert(xs[0], Sort(xs[1..], leq), leq)
  }

  lemma {:induction false} InsertElements<T>(x: T, xs: seq<T>, leq: (T, T) -> bool)
    ensures multiset(Insert(x, xs, leq)) == multiset(xs) + multiset{x}
  {
    if xs != [] {
      assert xs == [xs[0]] + xs[1..];
      if !leq(x, xs[0]) {
        InsertElements(x, xs[1..], leq);
      }
    }
  }

  lemma {:induction false} InsertIsSorted<T(!new)>(x: T, xs: seq<T>, leq: (T, T) -> bool)
    requires TotalPreorder(leq) && Sorted(xs, leq)
    ensures Sorted(Insert(x, xs, leq), leq)
  {
    if xs != [] && !leq(x, xs[0]) {
      InsertIsSorted(x, xs[1..], leq);
      var r := Insert(x, xs[1..], leq);
      InsertElements(x, xs[1..], leq);
      forall j | 0 <= j < |r| ensures leq(xs[0], r[j]) {
        assert r[j] in multiset(r);
        if r[j] != x {
          assert r[j] in xs[1..];
        }
      }
    }
  }

  /** The result is a sorted rearrangement of the input. */
  lemma {:induction false} SortIsSorted<T(!new)>(xs: seq<T>, leq: (T, T) -> bool)
    requires TotalPreorder(leq)
    ensures Sorted(Sort(xs, leq), leq)
    ensures multiset(Sort(xs, leq)) == multiset(xs)
  {
    if xs != [] {
      SortIsSorted(xs[1..], leq);
      InsertIsSorted(xs[0], Sort(xs[1..], leq), leq);
      InsertElements(xs[0], Sort(xs[1..], leq), leq);
      assert xs == [xs[0]] + xs[1..];
    }
  }

  /** Stability, read at the front: of the elements tied for first, the earliest given comes first. */
  lemma {:induction false} SortHead<T(!new)>(xs: seq<T>, leq: (T, T) -> bool, k: nat)
    requires TotalPreorder(leq) && k < |xs|
    requires forall i :: 0 <= i < |xs| ==> leq(xs[k], xs[i])
    requires forall i :: 0 <= i < k ==> !leq(xs[i], xs[k])
    ensures Sort(xs, leq)[0] == xs[k]
  {
    SortIsSorted(xs[1..], leq);
    var rest := Sort(xs[1..], leq);
    if k == 0 {
      if rest != [] {
        assert rest[0] in multiset(rest);
        assert rest[0] in xs[1..];
      }
    } else {
      SortHead(xs[1..], leq, k - 1);
      assert !leq(xs[0], xs[k]);
    }
  }

  /** Two sorted rearrangements of one collection are the same when no two elements tie. */
  lemma {:induction false} SortedUnique<T(!new)>(xs: seq<T>, ys: seq<T>, leq: (T, T) -> bool)
    requires multiset(xs) == multiset(ys)
    requires Sorted(xs, leq) && Sorted(ys, leq)
    requires forall a, b :: a in xs && b in xs && leq(a, b) && leq(b, a) ==> a == b
    ensures xs == ys
  {
    assert |xs| == |multiset(xs)| == |multiset(ys)| == |ys|;
    if xs != [] {
      SortedHeads(xs, ys, leq);
      TailOf(xs);
      TailOf(ys);
      SortedUnique(xs[1..], ys[1..], leq);
    }
  }

  lemma SortedHeads<T(!new)>(xs: seq<T>, ys: seq<T>, leq: (T, T) -> bool)
    requires multiset(xs) == multiset(ys) && xs != [] && ys != []
    requires Sorted(xs, leq) && Sorted(ys, leq)
    requires forall a, b :: a in xs && b in xs && leq(a, b) && leq(b, a) ==> a == b
    ensures xs[0] == ys[0]
  {
    assert xs[0] in multiset(ys) && ys[0] in multiset(xs);
    var j :| 0 <= j < |ys| && ys[j] == xs[0];
    var i :| 0 <= i < |xs| && xs[i] == ys[0];
  }
}
