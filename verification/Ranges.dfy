/**
 Merging address ranges.

 The index keeps its ranges sorted, disjoint and never touching, so that one binary search
 decides membership. Here that form is shown to be unique for what it covers, and sealing
 in several batches to end in the list that one batch would have given, attribution included.
 */
module Ranges {
  import opened Options
  import opened Sorting

  /** What a range reports when it matches: its feed, the feed's note, the prefix as written. */
  datatype Tag = Tag(source: string, note: Option<string>, prefix: string)

  datatype Range = Range(start: int, end: int, tag: Tag)

  predicate StartsBefore(a: Range, b: Range) { a.start <= b.start }

  function ByStart(): (Range, Range) -> bool { StartsBefore }

  function Larger(a: int, b: int): int { if a < b then b else a }

  /** One step of the merge: extend the last range, or open a new one. */
  function Absorb(merged: seq<Range>, r: Range): seq<Range>
  {
    if merged == [] then [r] else
    var last := merged[|merged| - 1];
    if r.start <= last.end + 1
    then merged[..|merged| - 1] + [last.(end := Larger(last.end, r.end))]
    else merged + [r]
  }

  function Merge(sorted: seq<Range>): seq<Range>
  {
    if sorted == [] then [] else Absorb(Merge(sorted[..|sorted| - 1]), sorted[|sorted| - 1])
  }

  function Sealed(entries: seq<Range>): seq<Range> { Merge(Sort(entries, ByStart())) }

  method MergeSorted(sorted: seq<Range>) returns (merged: seq<Range>)
    ensures merged == Merge(sorted)
  {
    merged := [];
    for i := 0 to |sorted|
      invariant merged == Merge(sorted[..i])
    {
      assert sorted[..i + 1][..i] == sorted[..i];
      var r := sorted[i];
      if |merged| > 0 && r.start <= merged[|merged| - 1].end + 1 {
        var last := merged[|merged| - 1];
        merged := merged[..|merged| - 1] + [last.(end := Larger(last.end, r.end))];
      } else {
        merged := merged + [r];
      }
    }
    assert sorted[..|sorted|] == sorted;
  }

  // ---------- coverage ----------

  ghost predicate Covers(rs: seq<Range>, v: int)
  {
    exists i :: 0 <= i < |rs| && rs[i].start <= v <= rs[i].end
  }

  ghost predicate SameCover(xs: seq<Range>, ys: seq<Range>)
  {
    forall v :: Covers(xs, v) <==> Covers(ys, v)
  }

  ghost predicate NonEmpty(rs: seq<Range>)
  {
    forall i :: 0 <= i < |rs| ==> rs[i].start <= rs[i].end
  }

  /** Sorted, and with a gap after every range. */
  ghost predicate Normal(rs: seq<Range>)
  {
    NonEmpty(rs) && forall i, j :: 0 <= i < j < |rs| ==> rs[i].end + 1 < rs[j].start
  }

  ghost predicate InOrder(rs: seq<Range>) { Sorted(rs, ByStart()) }

  lemma StartsArePreordered()
    ensures TotalPreorder(ByStart())
  {
  }

  lemma CoversBy(rs: seq<Range>, i: nat, v: int)
    requires i < |rs|
    ensures rs[i].start <= v <= rs[i].end ==> Covers(rs, v)
  {
  }

  lemma CoversSplit(rs: seq<Range>, v: int)
    requires rs != []
    ensures Covers(rs, v) <==> Covers(rs[..|rs| - 1], v) || rs[|rs| - 1].start <= v <= rs[|rs| - 1].end
  {
    var init := rs[..|rs| - 1];
    if Covers(init, v) {
      var i :| 0 <= i < |init| && init[i].start <= v <= init[i].end;
      assert rs[i].start <= v <= rs[i].end;
    }
    if Covers(rs, v) {
      var i :| 0 <= i < |rs| && rs[i].start <= v <= rs[i].end;
      assert i < |init| ==> init[i].start <= v <= init[i].end;
    }
  }

  lemma CoversConcat(xs: seq<Range>, ys: seq<Range>, v: int)
    ensures Covers(xs + ys, v) <==> Covers(xs, v) || Covers(ys, v)
  {
    if Covers(xs, v) {
      var i :| 0 <= i < |xs| && xs[i].start <= v <= xs[i].end;
      assert (xs + ys)[i] == xs[i];
    }
    if Covers(ys, v) {
      var i :| 0 <= i < |ys| && ys[i].start <= v <= ys[i].end;
      assert (xs + ys)[|xs| + i] == ys[i];
    }
  }

  /** Coverage does not depend on order. */
  lemma CoversPermuted(xs: seq<Range>, ys: seq<Range>, v: int)
    requires multiset(xs) == multiset(ys) && Covers(xs, v)
    ensures Covers(ys, v)
  {
    var i :| 0 <= i < |xs| && xs[i].start <= v <= xs[i].end;
    assert xs[i] in multiset(ys);
    var j :| 0 <= j < |ys| && ys[j] == xs[i];
  }

  lemma NonEmptyPermuted(xs: seq<Range>, ys: seq<Range>)
    requires multiset(xs) == multiset(ys) && NonEmpty(xs)
    ensures NonEmpty(ys)
  {
    forall j | 0 <= j < |ys| ensures ys[j].start <= ys[j].end {
      assert ys[j] in multiset(xs);
    }
  }

  // ---------- merging ----------

  lemma AbsorbCovers(merged: seq<Range>, r: Range, v: int)
    requires Normal(merged) && r.start <= r.end
    requires merged != [] ==> merged[|merged| - 1].start <= r.start
    ensures Covers(Absorb(merged, r), v) <==> Covers(merged, v) || r.start <= v <= r.end
  {
    var next := Absorb(merged, r);
    CoversSplit(next, v);
    if merged != [] {
      CoversSplit(merged, v);
      if r.start <= merged[|merged| - 1].end + 1 {
        assert next[..|next| - 1] == merged[..|merged| - 1];
      } else {
        assert next[..|next| - 1] == merged;
      }
    }
  }

  lemma AbsorbNormal(merged: seq<Range>, r: Range)
    requires Normal(merged) && r.start <= r.end
    requires merged != [] ==> merged[|merged| - 1].start <= r.start
    ensures Normal(Absorb(merged, r)) && Absorb(merged, r) != []
    ensures Absorb(merged, r)[|Absorb(merged, r)| - 1].start <= r.start
  {
  }

  lemma AbsorbSameCover(merged: seq<Range>, sorted: seq<Range>)
    requires sorted != [] && Normal(merged) && sorted[|sorted| - 1].start <= sorted[|sorted| - 1].end
    requires merged != [] ==> merged[|merged| - 1].start <= sorted[|sorted| - 1].start
    requires SameCover(merged, sorted[..|sorted| - 1])
    ensures SameCover(Absorb(merged, sorted[|sorted| - 1]), sorted)
  {
    var next := Absorb(merged, sorted[|sorted| - 1]);
    forall v ensures Covers(next, v) <==> Covers(sorted, v) {
      AbsorbCovers(merged, sorted[|sorted| - 1], v);
      CoversSplit(sorted, v);
    }
  }

  /** Merging a sorted list normalises it and covers exactly what the list covers. */
  lemma {:induction false} MergeIsNormal(sorted: seq<Range>)
    requires InOrder(sorted) && NonEmpty(sorted)
    ensures Normal(Merge(sorted)) && SameCover(Merge(sorted), sorted)
    ensures sorted != [] ==> Merge(sorted) != []
    ensures sorted != [] ==> Merge(sorted)[|Merge(sorted)| - 1].start <= sorted[|sorted| - 1].start
  {
    if sorted != [] {
      var init, r := sorted[..|sorted| - 1], sorted[|sorted| - 1];
      MergeIsNormal(init);
      if init != [] {
        assert ByStart()(init[|init| - 1], r);
      }
      AbsorbNormal(Merge(init), r);
      AbsorbSameCover(Merge(init), sorted);
    }
  }

  lemma SealedIsNormal(entries: seq<Range>)
    requires NonEmpty(entries)
    ensures Normal(Sealed(entries)) && SameCover(Sealed(entries), entries)
  {
    var sorted := Sort(entries, ByStart());
    StartsArePreordered();
    SortIsSorted(entries, ByStart());
    NonEmptyPermuted(entries, sorted);
    MergeIsNormal(sorted);
    forall v ensures Covers(sorted, v) <==> Covers(entries, v) {
      if Covers(sorted, v) { CoversPermuted(sorted, entries, v); }
      if Covers(entries, v) { CoversPermuted(entries, sorted, v); }
    }
  }

  // ---------- the normal form is unique ----------

  predicate SameSpans(xs: seq<Range>, ys: seq<Range>)
  {
    |xs| == |ys| && forall i :: 0 <= i < |xs| ==> xs[i].start == ys[i].start && xs[i].end == ys[i].end
  }

  lemma NormalTail(rs: seq<Range>, v: int)
    requires Normal(rs) && rs != []
    ensures Normal(rs[1..])
    ensures Covers(rs[1..], v) <==> Covers(rs, v) && v > rs[0].end
  {
    if Covers(rs[1..], v) {
      var i :| 0 <= i < |rs[1..]| && rs[1..][i].start <= v <= rs[1..][i].end;
      assert rs[i + 1].start <= v <= rs[i + 1].end;
    }
    if Covers(rs, v) && v > rs[0].end {
      var i :| 0 <= i < |rs| && rs[i].start <= v <= rs[i].end;
      assert rs[1..][i - 1] == rs[i];
    }
  }

  /** The first range of a normal list: where coverage begins, and where it first stops. */
  lemma FirstRange(xs: seq<Range>, ys: seq<Range>)
    requires Normal(xs) && Normal(ys) && SameCover(xs, ys) && xs != [] && ys != []
    ensures xs[0].start >= ys[0].start
    ensures xs[0].start == ys[0].start ==> xs[0].end <= ys[0].end
  {
    CoversBy(xs, 0, xs[0].start);
    assert Covers(ys, xs[0].start);
    CoversBy(xs, 0, ys[0].end + 1);
    GapAbove(ys);
  }

  lemma GapAbove(rs: seq<Range>)
    requires Normal(rs) && rs != []
    ensures !Covers(rs, rs[0].end + 1)
  {
    forall j | 0 <= j < |rs| ensures !(rs[j].start <= rs[0].end + 1 <= rs[j].end) {
      assert 0 < j ==> rs[0].end + 1 < rs[j].start;
    }
  }

  /** At most one normal list covers a given set of addresses. */
  lemma {:induction false} NormalIsUnique(xs: seq<Range>, ys: seq<Range>)
    requires Normal(xs) && Normal(ys) && SameCover(xs, ys)
    ensures SameSpans(xs, ys)
    decreases |xs|
  {
    if xs == [] {
      if ys != [] { CoversBy(ys, 0, ys[0].start); }
    } else {
      CoversBy(xs, 0, xs[0].start);
      FirstRange(xs, ys);
      FirstRange(ys, xs);
      forall v ensures Covers(xs[1..], v) <==> Covers(ys[1..], v) {
        NormalTail(xs, v);
        NormalTail(ys, v);
      }
      NormalTail(xs, 0);
      NormalTail(ys, 0);
      NormalIsUnique(xs[1..], ys[1..]);
      forall i | 0 <= i < |xs| ensures xs[i].start == ys[i].start && xs[i].end == ys[i].end {
        if i > 0 { assert xs[1..][i - 1] == xs[i] && ys[1..][i - 1] == ys[i]; }
      }
    }
  }

  /** Sealing the same entries in another order gives the same ranges. */
  lemma OrderDoesNotMatter(xs: seq<Range>, ys: seq<Range>)
    requires multiset(xs) == multiset(ys) && NonEmpty(xs)
    ensures SameSpans(Sealed(xs), Sealed(ys))
  {
    NonEmptyPermuted(xs, ys);
    SealedIsNormal(xs);
    SealedIsNormal(ys);
    forall v ensures Covers(Sealed(xs), v) <==> Covers(Sealed(ys), v) {
      if Covers(xs, v) { CoversPermuted(xs, ys, v); }
      if Covers(ys, v) { CoversPermuted(ys, xs, v); }
    }
    NormalIsUnique(Sealed(xs), Sealed(ys));
  }

  // ---------- attribution ----------

  /** The attribution of the first entry that starts at `s`. */
  function FirstAt(xs: seq<Range>, s: int): Option<Tag>
  {
    if xs == [] then None
    else if xs[0].start == s then Some(xs[0].tag)
    else FirstAt(xs[1..], s)
  }

  lemma {:induction false} FirstAtConcat(xs: seq<Range>, ys: seq<Range>, s: int)
    ensures FirstAt(xs + ys, s) == if FirstAt(xs, s).Some? then FirstAt(xs, s) else FirstAt(ys, s)
  {
    if xs == [] {
      assert xs + ys == ys;
    } else {
      assert (xs + ys)[1..] == xs[1..] + ys;
      FirstAtConcat(xs[1..], ys, s);
    }
  }

  lemma {:induction false} FirstAtNone(xs: seq<Range>, s: int)
    ensures FirstAt(xs, s).None? <==> forall i :: 0 <= i < |xs| ==> xs[i].start != s
  {
    if xs != [] {
      FirstAtNone(xs[1..], s);
      assert forall i :: 0 < i < |xs| ==> xs[i] == xs[1..][i - 1];
    }
  }

  lemma {:induction false} FirstAtInsert(x: Range, xs: seq<Range>, s: int)
    ensures FirstAt(Insert(x, xs, ByStart()), s) == if x.start == s then Some(x.tag) else FirstAt(xs, s)
  {
    if xs != [] {
      if StartsBefore(x, xs[0]) {
        assert ([x] + xs)[1..] == xs;
      } else {
        FirstAtInsert(x, xs[1..], s);
        assert ([xs[0]] + Insert(x, xs[1..], ByStart()))[1..] == Insert(x, xs[1..], ByStart());
      }
    }
  }

  /** A stable sort keeps the first entry at each start first. */
  lemma {:induction false} FirstAtSort(xs: seq<Range>, s: int)
    ensures FirstAt(Sort(xs, ByStart()), s) == FirstAt(xs, s)
  {
    if xs != [] {
      FirstAtSort(xs[1..], s);
      FirstAtInsert(xs[0], Sort(xs[1..], ByStart()), s);
    }
  }

  /** Each range carries the attribution of the first entry that starts where it does. */
  ghost predicate Attributed(rs: seq<Range>, entries: seq<Range>)
  {
    forall i :: 0 <= i < |rs| ==> FirstAt(entries, rs[i].start) == Some(rs[i].tag)
  }

  lemma AttributedStays(rs: seq<Range>, entries: seq<Range>, r: Range)
    requires Attributed(rs, entries)
    ensures Attributed(rs, entries + [r])
  {
    forall i | 0 <= i < |rs| ensures FirstAt(entries + [r], rs[i].start) == Some(rs[i].tag) {
      FirstAtConcat(entries, [r], rs[i].start);
    }
  }

  lemma {:induction false} MergeIsAttributed(sorted: seq<Range>)
    requires InOrder(sorted) && NonEmpty(sorted)
    ensures Attributed(Merge(sorted), sorted)
  {
    if sorted != [] {
      var init, r := sorted[..|sorted| - 1], sorted[|sorted| - 1];
      assert sorted == init + [r];
      MergeIsAttributed(init);
      MergeIsNormal(init);
      AttributedStays(Merge(init), init, r);
      AbsorbAttributed(Merge(init), init, r);
    }
  }

  lemma AbsorbAttributed(merged: seq<Range>, init: seq<Range>, r: Range)
    requires Normal(merged) && SameCover(merged, init) && NonEmpty(init)
    requires Attributed(merged, init + [r])
    ensures Attributed(Absorb(merged, r), init + [r])
  {
    if merged == [] || r.start > merged[|merged| - 1].end + 1 {
      forall i | 0 <= i < |init| ensures init[i].start != r.start {
        assert Covers(init, init[i].start);
        assert Covers(merged, init[i].start);
      }
      FirstAtNone(init, r.start);
      FirstAtConcat(init, [r], r.start);
    }
  }

  lemma SealedIsAttributed(entries: seq<Range>)
    requires NonEmpty(entries)
    ensures Attributed(Sealed(entries), entries)
  {
    var sorted := Sort(entries, ByStart());
    StartsArePreordered();
    SortIsSorted(entries, ByStart());
    NonEmptyPermuted(entries, sorted);
    MergeIsAttributed(sorted);
    forall i | 0 <= i < |Sealed(entries)|
      ensures FirstAt(entries, Sealed(entries)[i].start) == Some(Sealed(entries)[i].tag)
    {
      FirstAtSort(entries, Sealed(entries)[i].start);
    }
  }

  // ---------- batches ----------

  /** Nothing just below a normal range is covered. */
  lemma GapBelow(rs: seq<Range>, i: nat)
    requires Normal(rs) && i < |rs|
    ensures Covers(rs, rs[i].start) && !Covers(rs, rs[i].start - 1)
  {
    forall j | 0 <= j < |rs| ensures !(rs[j].start <= rs[i].start - 1 <= rs[j].end) {
      assert i < j ==> rs[i].end + 1 < rs[j].start;
      assert j < i ==> rs[j].end + 1 < rs[i].start;
    }
  }

  /** Where coverage begins, the sealed list and the entries name the same attribution. */
  lemma FirstAtSealed(entries: seq<Range>, s: int)
    requires NonEmpty(entries) && !Covers(entries, s - 1)
    ensures FirstAt(Sealed(entries), s) == FirstAt(entries, s)
  {
    var rs := Sealed(entries);
    SealedIsNormal(entries);
    SealedIsAttributed(entries);
    FirstAtNone(rs, s);
    FirstAtNone(entries, s);
    if FirstAt(entries, s).Some? {
      var k :| 0 <= k < |entries| && entries[k].start == s;
      CoversBy(entries, k, s);
      assert Covers(rs, s);
      var i :| 0 <= i < |rs| && rs[i].start <= s <= rs[i].end;
      CoversBy(rs, i, s - 1);
    }
    if FirstAt(rs, s).Some? {
      FirstAtFound(rs, s);
    }
  }

  lemma {:induction false} FirstAtFound(xs: seq<Range>, s: int)
    requires FirstAt(xs, s).Some?
    ensures exists i :: 0 <= i < |xs| && xs[i].start == s && FirstAt(xs, s) == Some(xs[i].tag)
  {
    if xs[0].start != s {
      FirstAtFound(xs[1..], s);
      var i :| 0 <= i < |xs[1..]| && xs[1..][i].start == s && FirstAt(xs, s) == Some(xs[1..][i].tag);
      assert xs[i + 1] == xs[1..][i];
    }
  }

  lemma SealedCovers(a: seq<Range>, b: seq<Range>, v: int)
    requires NonEmpty(a)
    ensures Covers(Sealed(a) + b, v) <==> Covers(a + b, v)
  {
    SealedIsNormal(a);
    CoversConcat(Sealed(a), b, v);
    CoversConcat(a, b, v);
  }

  lemma BatchesSameSpans(a: seq<Range>, b: seq<Range>)
    requires NonEmpty(a) && NonEmpty(b)
    ensures NonEmpty(Sealed(a) + b)
    ensures SameSpans(Sealed(Sealed(a) + b), Sealed(a + b))
  {
    SealedIsNormal(a);
    var two, one := Sealed(Sealed(a) + b), Sealed(a + b);
    SealedIsNormal(Sealed(a) + b);
    SealedIsNormal(a + b);
    forall v ensures Covers(two, v) <==> Covers(one, v) {
      SealedCovers(a, b, v);
    }
    NormalIsUnique(two, one);
  }

  lemma BatchesSameTag(a: seq<Range>, b: seq<Range>, s: int)
    requires NonEmpty(a) && !Covers(a + b, s - 1)
    ensures FirstAt(Sealed(a) + b, s) == FirstAt(a + b, s)
  {
    CoversConcat(a, b, s - 1);
    FirstAtSealed(a, s);
    FirstAtConcat(Sealed(a), b, s);
    FirstAtConcat(a, b, s);
  }

  lemma SealedStarts(entries: seq<Range>, i: nat)
    requires NonEmpty(entries) && i < |Sealed(entries)|
    ensures !Covers(entries, Sealed(entries)[i].start - 1)
    ensures FirstAt(entries, Sealed(entries)[i].start) == Some(Sealed(entries)[i].tag)
  {
    SealedIsNormal(entries);
    SealedIsAttributed(entries);
    GapBelow(Sealed(entries), i);
  }

  /** Sealing again on top of a sealed list is sealing everything at once, attribution and all. */
  lemma BatchesDoNotMatter(a: seq<Range>, b: seq<Range>)
    requires NonEmpty(a) && NonEmpty(b)
    ensures Sealed(Sealed(a) + b) == Sealed(a + b)
  {
    BatchesSameSpans(a, b);
    var two, one := Sealed(Sealed(a) + b), Sealed(a + b);
    forall i | 0 <= i < |one| ensures two[i] == one[i] {
      SealedStarts(a + b, i);
      SealedStarts(Sealed(a) + b, i);
      BatchesSameTag(a, b, one[i].start);
    }
  }

  // ---------- lookup ----------

  /** The range an address falls in, by looking at every one. */
  function Scan(rs: seq<Range>, v: int): Option<Range>
  {
    if rs == [] then None
    else if rs[0].start <= v <= rs[0].end then Some(rs[0])
    else Scan(rs[1..], v)
  }

  lemma {:induction false} ScanAt(rs: seq<Range>, v: int, i: nat)
    requires Normal(rs) && i < |rs| && rs[i].start <= v <= rs[i].end
    ensures Scan(rs, v) == Some(rs[i])
  {
    if i > 0 {
      assert rs[0].end + 1 < rs[i].start;
      ScanAt(rs[1..], v, i - 1);
    }
  }

  lemma {:induction false} ScanCovers(rs: seq<Range>, v: int)
    ensures Scan(rs, v).Some? <==> Covers(rs, v)
    ensures Scan(rs, v).Some? ==> Scan(rs, v).value in rs && Scan(rs, v).value.start <= v <= Scan(rs, v).value.end
  {
    if rs != [] {
      ScanCovers(rs[1..], v);
      assert forall i :: 0 < i < |rs| ==> rs[i] == rs[1..][i - 1];
      if Covers(rs[1..], v) {
        var i :| 0 <= i < |rs[1..]| && rs[1..][i].start <= v <= rs[1..][i].end;
        assert rs[i + 1].start <= v <= rs[i + 1].end;
      }
    }
  }

  /** Binary search: narrows to the one range that could hold the address, and looks whether it does. */
  method FindRange(rs: seq<Range>, v: int) returns (r: Option<Range>)
    requires Normal(rs)
    ensures r == Scan(rs, v)
  {
    var low, high := 0, |rs| - 1;
    var found := None;
    while low <= high
      invariant 0 <= low <= high + 1 <= |rs|
      invariant forall i :: 0 <= i < low ==> rs[i].start <= v
      invariant forall i :: high < i < |rs| ==> v < rs[i].start
      invariant found == if low == 0 then None else Some(rs[low - 1])
    {
      var mid := (low + high) / 2;
      if rs[mid].start <= v {
        found := Some(rs[mid]);
        low := mid + 1;
      } else {
        high := mid - 1;
      }
    }
    r := if found.Some? && v <= found.value.end then found else None;
    OnlyLastStart(rs, v, low);
  }

  /** Of the ranges starting at or below `v`, only the last can hold it. */
  lemma OnlyLastStart(rs: seq<Range>, v: int, n: nat)
    requires Normal(rs) && n <= |rs|
    requires forall i :: 0 <= i < n ==> rs[i].start <= v
    requires forall i :: n <= i < |rs| ==> v < rs[i].start
    ensures Scan(rs, v) == if n > 0 && v <= rs[n - 1].end then Some(rs[n - 1]) else None
  {
    ScanCovers(rs, v);
    if n > 0 && v <= rs[n - 1].end {
      ScanAt(rs, v, n - 1);
    } else {
      forall i | 0 <= i < |rs| ensures !(rs[i].start <= v <= rs[i].end) {
        assert i < n - 1 ==> rs[i].end + 1 < rs[n - 1].start;
      }
    }
  }
}
