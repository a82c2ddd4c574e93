/**
 The insertion-ordered map of the source language: assigning to a present key keeps its
 place, assigning to an absent one appends it. The template cache and the notifier's
 throttle table are both this map behind a size limit.
 */
module OrderedMaps {

  datatype OrderedMap<K(==), V> = OrderedMap(order: seq<K>, vals: map<K, V>)
  {
    ghost predicate Valid()
    {
      (forall i, j :: 0 <= i < j < |order| ==> order[i] != order[j]) &&
      (forall k :: k in order ==> k in vals) && (forall k :: k in vals ==> k in order)
    }

    predicate Has(k: K) { k in vals }

    function Size(): nat { |order| }

    function Set(k: K, v: V): OrderedMap<K, V>
    {
      OrderedMap(if k in vals then order else order + [k], vals[k := v])
    }

    /** Removes the keys in `gone`, keeping the others in place. */
    function Remove(gone: set<K>): OrderedMap<K, V>
    {
      OrderedMap(Without(order, gone), vals - gone)
    }

    /** Assignment behind a limit: the first key in order makes room for a new one. */
    function SetBounded(limit: nat, k: K, v: V): OrderedMap<K, V>
    {
      if !Has(k) && Size() >= limit && order != []
      then Remove({order[0]}).Set(k, v)
      else Set(k, v)
    }

    /** The key `SetBounded` gives up, if any. */
    ghost function Victims(limit: nat, k: K): seq<K>
    {
      if !Has(k) && Size() >= limit && order != [] then [order[0]] else []
    }

    lemma SetKeepsValid(k: K, v: V)
      requires Valid()
      ensures Set(k, v).Valid()
    {
    }

    lemma RemoveKeepsValid(gone: set<K>)
      requires Valid()
      ensures Remove(gone).Valid()
      ensures Remove(gone).order == Without(order, gone)
    {
      WithoutIsFilter(order, gone);
    }

    /** Making room drops the first key and nothing else. */
    lemma RemoveFirst()
      requires Valid() && order != []
      ensures Remove({order[0]}).Valid()
      ensures Remove({order[0]}).order == order[1..]
    {
      RemoveKeepsValid({order[0]});
      WithoutHead(order);
    }

    /** Whatever the limit, the result is a map, and never outgrows the limit (or one entry). */
    lemma SetBoundedKeepsValid(limit: nat, k: K, v: V)
      requires Valid()
      ensures SetBounded(limit, k, v).Valid()
      ensures Victims(limit, k) + SetBounded(limit, k, v).order == if Has(k) then order else order + [k]
      ensures Size() <= limit || Size() <= 1 ==>
                SetBounded(limit, k, v).Size() <= limit || SetBounded(limit, k, v).Size() <= 1
    {
      if !Has(k) && Size() >= limit && order != [] {
        RemoveFirst();
        Remove({order[0]}).SetKeepsValid(k, v);
        assert k !in Remove({order[0]}).vals;
        assert [order[0]] + (order[1..] + [k]) == order + [k];
      } else {
        SetKeepsValid(k, v);
        assert [] + Set(k, v).order == Set(k, v).order;
      }
    }
  }

  function Without<K(==)>(s: seq<K>, gone: set<K>): seq<K>
  {
    if s == [] then []
    else if s[0] in gone then Without(s[1..], gone)
    else [s[0]] + Without(s[1..], gone)
  }

  ghost predicate NoDuplicates<K>(s: seq<K>)
  {
    forall i, j :: 0 <= i < j < |s| ==> s[i] != s[j]
  }

  lemma {:induction false} WithoutIsFilter<K>(s: seq<K>, gone: set<K>)
    ensures forall k :: k in Without(s, gone) ==> k in s && k !in gone
    ensures forall k :: k in s && k !in gone ==> k in Without(s, gone)
    ensures NoDuplicates(s) ==> NoDuplicates(Without(s, gone))
  {
    if s != [] {
      WithoutIsFilter(s[1..], gone);
      assert s == [s[0]] + s[1..];
      if NoDuplicates(s) {
        assert NoDuplicates(s[1..]);
      }
    }
  }

  lemma {:induction false} WithoutAbsent<K>(s: seq<K>, gone: set<K>)
    requires forall k :: k in s ==> k !in gone
    ensures Without(s, gone) == s
  {
    if s != [] {
      WithoutAbsent(s[1..], gone);
    }
  }

  lemma WithoutHead<K>(s: seq<K>)
    requires s != [] && NoDuplicates(s)
    ensures Without(s, {s[0]}) == s[1..]
  {
    WithoutAbsent(s[1..], {s[0]});
  }

  lemma {:induction false} WithoutShrinks<K>(s: seq<K>, gone: set<K>)
    ensures |Without(s, gone)| <= |s|
  {
    if s != [] {
      WithoutShrinks(s[1..], gone);
    }
  }

  lemma {:induction false} WithoutTwice<K>(s: seq<K>, gone: set<K>, more: set<K>)
    ensures Without(Without(s, gone), more) == Without(s, gone + more)
  {
    if s != [] {
      WithoutTwice(s[1..], gone, more);
      if s[0] !in gone {
        assert Without(s, gone)[1..] == Without(s[1..], gone);
      }
    }
  }

  /** Survivors keep their relative order. */
  lemma {:induction false} WithoutInOrder<K>(s: seq<K>, gone: set<K>, i: nat, j: nat) returns (a: nat, b: nat)
    requires i < j < |Without(s, gone)|
    ensures a < b < |s| && s[a] == Without(s, gone)[i] && s[b] == Without(s, gone)[j]
  {
    if s[0] in gone {
      a, b := WithoutInOrder(s[1..], gone, i, j);
      a, b := a + 1, b + 1;
    } else if i == 0 {
      a := 0;
      assert Without(s, gone)[j] == Without(s[1..], gone)[j - 1];
      WithoutIsFilter(s[1..], gone);
      var k := Without(s, gone)[j];
      assert k in Without(s[1..], gone);
      assert k in s[1..];
      b :| 0 < b < |s| && s[b] == Without(s, gone)[j];
    } else {
      a, b := WithoutInOrder(s[1..], gone, i - 1, j - 1);
      a, b := a + 1, b + 1;
    }
  }
}
