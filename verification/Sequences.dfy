/** Sequences put together piece by piece, and what reordering the pieces changes. */
module Sequences {

  /** Each element replaced by the elements it gives. */
  function FlatMap<T, U>(xs: seq<T>, f: T -> seq<U>): seq<U>
  {
    if xs == [] then [] else FlatMap(xs[..|xs| - 1], f) + f(xs[|xs| - 1])
  }

  lemma FlatMapSnoc<T, U>(xs: seq<T>, x: T, f: T -> seq<U>)
    ensures FlatMap(xs + [x], f) == FlatMap(xs, f) + f(x)
  {
    assert (xs + [x])[..|xs|] == xs;
  }

  lemma {:induction false} FlatMapConcat<T, U>(xs: seq<T>, ys: seq<T>, f: T -> seq<U>)
    ensures FlatMap(xs + ys, f) == FlatMap(xs, f) + FlatMap(ys, f)
  {
    if ys == [] {
      assert xs + ys == xs;
    } else {
      var init, last := ys[..|ys| - 1], ys[|ys| - 1];
      assert xs + ys == (xs + init) + [last] && ys == init + [last];
      FlatMapSnoc(xs + init, last, f);
      FlatMapSnoc(init, last, f);
      FlatMapConcat(xs, init, f);
      Regroup(FlatMap(xs, f), FlatMap(init, f), f(last));
    }
  }

  lemma Regroup<T>(a: seq<T>, b: seq<T>, c: seq<T>)
    ensures (a + b) + c == a + (b + c)
  {
  }

  // ---------- sums ----------

  function Sum<T>(xs: seq<T>, f: T -> nat): nat
  {
    if xs == [] then 0 else Sum(xs[..|xs| - 1], f) + f(xs[|xs| - 1])
  }

  lemma {:induction false} SumConcat<T>(xs: seq<T>, ys: seq<T>, f: T -> nat)
    ensures Sum(xs + ys, f) == Sum(xs, f) + Sum(ys, f)
  {
    if ys == [] {
      assert xs + ys == xs;
    } else {
      assert (xs + ys)[..|xs + ys| - 1] == xs + ys[..|ys| - 1];
      SumConcat(xs, ys[..|ys| - 1], f);
    }
  }

  lemma SumSnoc<T>(xs: seq<T>, x: T, f: T -> nat)
    ensures Sum(xs + [x], f) == Sum(xs, f) + f(x)
  {
    assert (xs + [x])[..|xs|] == xs;
  }

  lemma SumAround<T>(before: seq<T>, x: T, after: seq<T>, f: T -> nat)
    ensures Sum(before + [x] + after, f) == Sum(before + after, f) + f(x)
  {
    SumConcat(before + [x], after, f);
    SumSnoc(before, x, f);
    SumConcat(before, after, f);
  }

  lemma CutAround<T>(xs: seq<T>, k: nat)
    requires k < |xs|
    ensures xs == xs[..k] + [xs[k]] + xs[k + 1..]
  {
  }

  lemma SumWithout<T>(xs: seq<T>, k: nat, f: T -> nat)
    requires k < |xs|
    ensures Sum(xs, f) == Sum(xs[..k] + xs[k + 1..], f) + f(xs[k])
  {
    CutAround(xs, k);
    SumAround(xs[..k], xs[k], xs[k + 1..], f);
  }

  lemma SumUpdate<T>(xs: seq<T>, k: nat, x: T, f: T -> nat)
    requires k < |xs|
    ensures Sum(xs[k := x], f) + f(xs[k]) == Sum(xs, f) + f(x)
  {
    SumWithout(xs, k, f);
    SumWithout(xs[k := x], k, f);
    assert xs[k := x][..k] + xs[k := x][k + 1..] == xs[..k] + xs[k + 1..];
  }

  lemma {:induction false} SumAtMost<T>(xs: seq<T>, f: T -> nat, m: nat)
    requires forall k :: 0 <= k < |xs| ==> f(xs[k]) <= m
    ensures Sum(xs, f) <= |xs| * m
  {
    if xs != [] {
      SumAtMost(xs[..|xs| - 1], f, m);
      assert |xs| * m == (|xs| - 1) * m + m;
    }
  }

  /** Takes the first element of one sequence out of a rearrangement of it. */
  lemma TakeOut<T>(xs: seq<T>, ys: seq<T>) returns (before: seq<T>, after: seq<T>)
    requires xs != [] && multiset(xs) == multiset(ys)
    ensures ys == before + [xs[0]] + after && multiset(xs[1..]) == multiset(before + after)
  {
    assert xs[0] in multiset(ys);
    var j :| 0 <= j < |ys| && ys[j] == xs[0];
    before, after := ys[..j], ys[j + 1..];
    TailOf(xs);
    WithoutOne(before, xs[0], after);
    assert ys == before + [xs[0]] + after;
  }

  lemma TailOf<T>(xs: seq<T>)
    requires xs != []
    ensures multiset(xs[1..]) == multiset(xs) - multiset{xs[0]}
  {
    assert xs == [xs[0]] + xs[1..];
  }

  lemma WithoutOne<T>(before: seq<T>, x: T, after: seq<T>)
    ensures multiset(before + after) == multiset(before + [x] + after) - multiset{x}
  {
    assert multiset(before + [x] + after) == multiset(before + after) + multiset{x};
  }

  lemma FlatMapAround<T, U>(before: seq<T>, x: T, after: seq<T>, f: T -> seq<U>)
    ensures multiset(FlatMap(before + [x] + after, f)) == multiset(FlatMap(before + after, f)) + multiset(f(x))
  {
    FlatMapConcat(before + [x], after, f);
    FlatMapSnoc(before, x, f);
    FlatMapConcat(before, after, f);
  }

  /** Rearranging the input rearranges the output. */
  lemma {:induction false} FlatMapPermuted<T, U>(xs: seq<T>, ys: seq<T>, f: T -> seq<U>)
    requires multiset(xs) == multiset(ys)
    ensures multiset(FlatMap(xs, f)) == multiset(FlatMap(ys, f))
  {
    if xs == [] {
      assert |multiset(ys)| == 0;
    } else {
      var before, after := TakeOut(xs, ys);
      FlatMapPermuted(xs[1..], before + after, f);
      FlatMapAround(before, xs[0], after, f);
      FlatMapAround([], xs[0], xs[1..], f);
      assert [] + [xs[0]] + xs[1..] == xs && [] + xs[1..] == xs[1..];
    }
  }

  lemma SameSize<T>(xs: seq<T>, ys: seq<T>)
    requires multiset(xs) == multiset(ys)
    ensures |xs| == |ys|
  {
    assert |xs| == |multiset(xs)| && |ys| == |multiset(ys)|;
  }

  ghost predicate Gives<T, U>(xs: seq<T>, f: T -> seq<U>, i: nat) { i < |xs| && f(xs[i]) != [] }

  lemma {:induction false} FlatMapEmpty<T, U>(xs: seq<T>, f: T -> seq<U>)
    ensures FlatMap(xs, f) != [] <==> exists i :: Gives(xs, f, i)
  {
    if xs != [] {
      var init, n := xs[..|xs| - 1], |xs| - 1;
      FlatMapEmpty(init, f);
      if i: nat :| Gives(init, f, i) {
        assert Gives(xs, f, i);
      }
      assert Gives(xs, f, n) <==> f(xs[n]) != [];
      if i: nat :| Gives(xs, f, i) {
        assert i < n ==> Gives(init, f, i);
      }
    }
  }

  ghost predicate BothGive<T, U>(xs: seq<T>, f: T -> seq<U>, i: nat, j: nat)
  {
    i < j && Gives(xs, f, i) && Gives(xs, f, j)
  }

  /** Where no element gives more than one, two come from two elements. */
  lemma {:induction false} FlatMapTwo<T, U>(xs: seq<T>, f: T -> seq<U>)
    requires forall i :: 0 <= i < |xs| ==> |f(xs[i])| <= 1
    ensures |FlatMap(xs, f)| > 1 <==> exists i, j :: BothGive(xs, f, i, j)
  {
    if xs != [] {
      var init, n := xs[..|xs| - 1], |xs| - 1;
      FlatMapTwo(init, f);
      FlatMapEmpty(init, f);
      if i: nat, j: nat :| BothGive(init, f, i, j) {
        assert BothGive(xs, f, i, j);
      } else if f(xs[n]) != [] && FlatMap(init, f) != [] {
        var i: nat :| Gives(init, f, i);
        assert BothGive(xs, f, i, n);
      }
      if i: nat, j: nat :| BothGive(xs, f, i, j) {
        assert Gives(init, f, i);
        assert j < n ==> BothGive(init, f, i, j);
      }
    }
  }

  function KeySet<T, K>(xs: seq<T>, key: T -> K): set<K>
  {
    if xs == [] then {} else KeySet(xs[..|xs| - 1], key) + {key(xs[|xs| - 1])}
  }

  lemma {:induction false} KeysGive<T(!new), K, U>(xs: seq<T>, key: T -> K, f: T -> seq<U>, k: K)
    requires forall x :: f(x) != [] <==> key(x) == k
    ensures k in KeySet(xs, key) <==> FlatMap(xs, f) != []
  {
    if xs != [] {
      KeysGive(xs[..|xs| - 1], key, f, k);
      assert f(xs[|xs| - 1]) != [] <==> key(xs[|xs| - 1]) == k;
    }
  }
}
