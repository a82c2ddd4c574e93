/** Migration files: reading a version out of a file name, comparing versions, and ordering a directory. */
module Migrations {
  import opened Options
  import opened Radix
  import opened Text
  import opened Sequences
  import opened Sorting

  datatype MigrationFile = MigrationFile(version: string, name: string, file: string)

  // ---------- file names ----------

  /** Both separators of a version read as a dot. */
  function Dotted(version: string): (r: string)
    ensures |r| == |version|
  {
    seq(|version|, i requires 0 <= i < |version| => if version[i] == '_' then '.' else version[i])
  }

  function Components(version: string): seq<string> { Split(Dotted(version), ".") }

  predicate IsVersion(version: string)
  {
    forall p :: p in Components(version) ==> p != "" && AllDigits(10, p)
  }

  /** The position of the first double underscore. */
  function DoubleUnderscore(s: string): Option<nat>
  {
    if |s| < 2 then None
    else if s[0] == '_' && s[1] == '_' then Some(0)
    else match DoubleUnderscore(s[1..])
         case None => None
         case Some(k) => Some(k + 1)
  }

  predicate IsLineTerminator(c: char) { c == '\n' || c == '\r' || c == '\U{2028}' || c == '\U{2029}' }

  function Spaced(name: string): string
  {
    seq(|name|, i requires 0 <= i < |name| => if name[i] == '_' then ' ' else name[i])
  }

  predicate EndsWith(s: string, suffix: string) { |suffix| <= |s| && s[|s| - |suffix|..] == suffix }

  /**
   `V<version>__<name>.sql`. A version never holds two separators in a row nor ends in one, so
   it is what stands before the first double underscore.
   */
  function ParseFile(file: string): Option<MigrationFile>
  {
    if |file| < 5 || file[0] != 'V' || !EndsWith(file, ".sql") then None
    else
      var stem := file[1..|file| - 4];
      match DoubleUnderscore(stem)
      case None => None
      case Some(k) =>
        if k + 2 > |stem| then None else
        var version, name := stem[..k], stem[k + 2..];
        if !IsVersion(version) || name == "" || exists i :: 0 <= i < |name| && IsLineTerminator(name[i]) then None
        else Some(MigrationFile(version, Spaced(name), file))
  }

  // ---------- the file-name pattern ----------

  /** The pattern, read declaratively. */
  ghost predicate Matches(file: string, version: string, name: string)
  {
    file == "V" + version + "__" + name + ".sql" && IsVersion(version) && name != "" &&
    forall i :: 0 <= i < |name| ==> !IsLineTerminator(name[i])
  }

  lemma VersionHasNoGap(version: string, i: nat)
    requires IsVersion(version) && i < |version| && version[i] == '_'
    ensures i + 1 < |version| && version[i + 1] != '_'
  {
    var d := Dotted(version);
    SplitAt(d[..i], '.', d[i + 1..]);
    assert d == d[..i] + "." + d[i + 1..];
    var rest := Split(d[i + 1..], ".");
    assert rest[0] in Components(version);
    if d[i + 1..] != "" {
      assert d[i + 1..][..1] == [d[i + 1]];
    }
  }

  lemma {:induction false} FirstGap(s: string, k: nat)
    requires k + 1 < |s| && s[k] == '_' && s[k + 1] == '_'
    requires forall i :: 0 <= i < k && s[i] == '_' ==> s[i + 1] != '_'
    ensures DoubleUnderscore(s) == Some(k)
  {
    if k > 0 {
      forall i | 0 <= i < k - 1 && s[1..][i] == '_' ensures s[1..][i + 1] != '_' {
        assert s[1..][i] == s[i + 1] && s[1..][i + 1] == s[i + 2];
      }
      FirstGap(s[1..], k - 1);
    }
  }

  lemma {:induction false} GapIsThere(s: string)
    requires DoubleUnderscore(s).Some?
    ensures var k := DoubleUnderscore(s).value; k + 2 <= |s| && s[k] == '_' && s[k + 1] == '_'
  {
    if !(s[0] == '_' && s[1] == '_') { GapIsThere(s[1..]); }
  }

  lemma MatchingIsParsed(file: string, version: string, name: string)
    requires Matches(file, version, name)
    ensures ParseFile(file) == Some(MigrationFile(version, Spaced(name), file))
  {
    var stem := version + "__" + name;
    assert file == "V" + stem + ".sql";
    assert file[1..|file| - 4] == stem && file[|file| - 4..] == ".sql";
    forall i | 0 <= i < |version| && stem[i] == '_' ensures stem[i + 1] != '_' {
      VersionHasNoGap(version, i);
    }
    FirstGap(stem, |version|);
    assert stem[..|version|] == version && stem[|version| + 2..] == name;
  }

  lemma ParsedIsMatching(file: string) returns (name: string)
    requires ParseFile(file).Some?
    ensures Matches(file, ParseFile(file).value.version, name) && ParseFile(file).value.name == Spaced(name)
  {
    var stem := file[1..|file| - 4];
    GapIsThere(stem);
    var k := DoubleUnderscore(stem).value;
    name := stem[k + 2..];
    CutAtGap(stem, k);
    CutStem(file);
  }

  lemma CutAtGap(stem: string, k: nat)
    requires k + 2 <= |stem| && stem[k] == '_' && stem[k + 1] == '_'
    ensures stem == stem[..k] + "__" + stem[k + 2..]
  {
  }

  lemma CutStem(file: string)
    requires |file| >= 5 && file[0] == 'V' && EndsWith(file, ".sql")
    ensures file == "V" + file[1..|file| - 4] + ".sql"
  {
  }

  /** Reading a file name finds its version and name whenever the pattern matches, and only then;
      the pattern can match in one way at most. */
  lemma ParseFileIsThePattern(file: string, m: MigrationFile)
    ensures ParseFile(file) == Some(m) <==>
            exists name :: Matches(file, m.version, name) && m == MigrationFile(m.version, Spaced(name), file)
  {
    if ParseFile(file) == Some(m) {
      var name := ParsedIsMatching(file);
      assert Matches(file, m.version, name);
    }
    if name :| Matches(file, m.version, name) && m == MigrationFile(m.version, Spaced(name), file) {
      MatchingIsParsed(file, m.version, name);
    }
  }

  // ---------- comparing versions ----------

  function Numbers(components: seq<string>): (r: seq<nat>)
    ensures |r| == |components|
  {
    seq(|components|, i requires 0 <= i < |components| => Parse(10, components[i]))
  }

  function Parts(version: string): (r: seq<nat>)
    ensures |r| >= 1
  {
    Numbers(Components(version))
  }

  /** A missing component counts as zero. */
  function At(xs: seq<nat>, i: nat): nat { if i < |xs| then xs[i] else 0 }

  function Longer(xs: seq<nat>, ys: seq<nat>): nat { if |xs| < |ys| then |ys| else |xs| }

  /** The first difference among components `i` to `n`. */
  function Difference(xs: seq<nat>, ys: seq<nat>, i: nat, n: nat): int
    requires i <= n
    decreases n - i
  {
    if i == n then 0
    else if At(xs, i) != At(ys, i) then At(xs, i) - At(ys, i)
    else Difference(xs, ys, i + 1, n)
  }

  function Compare(a: string, b: string): int
  {
    Difference(Parts(a), Parts(b), 0, Longer(Parts(a), Parts(b)))
  }

  method CompareVersions(a: string, b: string) returns (order: int)
    ensures order == Compare(a, b)
  {
    var left, right := Parts(a), Parts(b);
    var length := Longer(left, right);
    var i := 0;
    while i < length
      invariant 0 <= i <= length
      invariant Compare(a, b) == Difference(left, right, i, length)
    {
      var l: int := if i < |left| then left[i] else 0;
      var r: int := if i < |right| then right[i] else 0;
      var diff := l - r;
      if diff != 0 { return diff; }
      i := i + 1;
    }
    return 0;
  }

  /** Trailing zeros dropped, keeping one component. */
  function Stripped(xs: seq<nat>): seq<nat>
  {
    if |xs| > 1 && xs[|xs| - 1] == 0 then Stripped(xs[..|xs| - 1]) else xs
  }

  function Printed(xs: seq<nat>): (r: seq<string>)
    ensures |r| == |xs|
  {
    seq(|xs|, i requires 0 <= i < |xs| => Dec(xs[i]))
  }

  function SortKey(version: string): string { Join(Printed(Stripped(Parts(version))), ".") }

  method MakeSortKey(version: string) returns (key: string)
    ensures key == SortKey(version)
  {
    var components := Parts(version);
    while |components| > 1 && components[|components| - 1] == 0
      invariant Stripped(components) == Stripped(Parts(version))
      decreases |components|
    {
      components := components[..|components| - 1];
    }
    key := Join(Printed(components), ".");
  }

  // ---------- the key and the comparison agree ----------

  ghost predicate SameVersion(xs: seq<nat>, ys: seq<nat>) { forall i :: At(xs, i) == At(ys, i) }

  lemma {:induction false} DifferenceZero(xs: seq<nat>, ys: seq<nat>, i: nat, n: nat)
    requires i <= n
    ensures Difference(xs, ys, i, n) == 0 <==> forall k :: i <= k < n ==> At(xs, k) == At(ys, k)
    decreases n - i
  {
    if i < n { DifferenceZero(xs, ys, i + 1, n); }
  }

  lemma CompareZero(a: string, b: string)
    ensures Compare(a, b) == 0 <==> SameVersion(Parts(a), Parts(b))
  {
    DifferenceZero(Parts(a), Parts(b), 0, Longer(Parts(a), Parts(b)));
  }

  lemma {:induction false} StrippedIsSame(xs: seq<nat>)
    requires |xs| >= 1
    ensures |Stripped(xs)| >= 1 && SameVersion(Stripped(xs), xs)
    ensures |Stripped(xs)| > 1 ==> Stripped(xs)[|Stripped(xs)| - 1] != 0
  {
    if |xs| > 1 && xs[|xs| - 1] == 0 { StrippedIsSame(xs[..|xs| - 1]); }
  }

  /** Versions that compare equal strip to the same components. */
  lemma StrippedIsCanonical(xs: seq<nat>, ys: seq<nat>)
    requires |xs| >= 1 && |ys| >= 1
    ensures Stripped(xs) == Stripped(ys) <==> SameVersion(xs, ys)
  {
    var s, t := Stripped(xs), Stripped(ys);
    StrippedIsSame(xs);
    StrippedIsSame(ys);
    if SameVersion(xs, ys) {
      SameLength(s, t);
      SameLength(t, s);
      forall i | 0 <= i < |s| ensures s[i] == t[i] {
        assert At(s, i) == At(xs, i) == At(ys, i) == At(t, i);
      }
    } else {
      var i :| At(xs, i) != At(ys, i);
      assert At(s, i) == At(xs, i) && At(t, i) == At(ys, i);
    }
  }

  lemma SameLength(s: seq<nat>, t: seq<nat>)
    requires |s| >= 1 && |t| >= 1 && (|s| > 1 ==> s[|s| - 1] != 0)
    requires forall i :: At(s, i) == At(t, i)
    ensures |s| <= |t|
  {
    assert At(s, |s| - 1) == At(t, |s| - 1);
  }

  lemma PrintedInjective(xs: seq<nat>, ys: seq<nat>)
    requires |xs| >= 1 && |ys| >= 1
    ensures Join(Printed(xs), ".") == Join(Printed(ys), ".") <==> xs == ys
  {
    PrintedSplits(xs);
    PrintedSplits(ys);
    if Join(Printed(xs), ".") == Join(Printed(ys), ".") {
      assert Numbers(Printed(xs)) == Numbers(Printed(ys));
    }
  }

  lemma PrintedSplits(xs: seq<nat>)
    requires |xs| >= 1
    ensures Split(Join(Printed(xs), "."), ".") == Printed(xs) && Numbers(Printed(xs)) == xs
  {
    forall i | 0 <= i < |xs| ensures '.' !in Printed(xs)[i] && Parse(10, Printed(xs)[i]) == xs[i] {
      ParsePrint(10, xs[i]);
    }
    SplitJoin(Printed(xs), '.');
  }

  /** One key per class of versions that compare equal. */
  lemma KeyAgrees(a: string, b: string)
    ensures SortKey(a) == SortKey(b) <==> Compare(a, b) == 0
  {
    CompareZero(a, b);
    StrippedIsSame(Parts(a));
    StrippedIsSame(Parts(b));
    PrintedInjective(Stripped(Parts(a)), Stripped(Parts(b)));
    StrippedIsCanonical(Parts(a), Parts(b));
  }

  // ---------- a total preorder ----------

  /** Components past the end of both are all zero, so comparing further changes nothing. */
  lemma {:induction false} DifferenceFurther(xs: seq<nat>, ys: seq<nat>, i: nat, n: nat, m: nat)
    requires i <= n <= m && Longer(xs, ys) <= n
    ensures Difference(xs, ys, i, m) == Difference(xs, ys, i, n)
    decreases n - i
  {
    if i == n {
      DifferenceZero(xs, ys, n, m);
    } else {
      DifferenceFurther(xs, ys, i + 1, n, m);
    }
  }

  lemma {:induction false} DifferenceFlips(xs: seq<nat>, ys: seq<nat>, i: nat, n: nat)
    requires i <= n
    ensures Difference(ys, xs, i, n) == -Difference(xs, ys, i, n)
    decreases n - i
  {
    if i < n { DifferenceFlips(xs, ys, i + 1, n); }
  }

  lemma {:induction false} DifferenceTransitive(xs: seq<nat>, ys: seq<nat>, zs: seq<nat>, i: nat, n: nat)
    requires i <= n && Difference(xs, ys, i, n) <= 0 && Difference(ys, zs, i, n) <= 0
    ensures Difference(xs, zs, i, n) <= 0
    decreases n - i
  {
    if i < n && At(xs, i) == At(ys, i) == At(zs, i) {
      DifferenceTransitive(xs, ys, zs, i + 1, n);
    }
  }

  lemma CompareAt(a: string, b: string, n: nat)
    requires Longer(Parts(a), Parts(b)) <= n
    ensures Compare(a, b) == Difference(Parts(a), Parts(b), 0, n)
  {
    DifferenceFurther(Parts(a), Parts(b), 0, Longer(Parts(a), Parts(b)), n);
  }

  lemma CompareFlips(a: string, b: string)
    ensures Compare(b, a) == -Compare(a, b)
  {
    DifferenceFlips(Parts(a), Parts(b), 0, Longer(Parts(a), Parts(b)));
  }

  lemma CompareTransitive(a: string, b: string, c: string)
    requires Compare(a, b) <= 0 && Compare(b, c) <= 0
    ensures Compare(a, c) <= 0
  {
    var n := |Parts(a)| + |Parts(b)| + |Parts(c)|;
    CompareAt(a, b, n);
    CompareAt(b, c, n);
    CompareAt(a, c, n);
    DifferenceTransitive(Parts(a), Parts(b), Parts(c), 0, n);
  }

  predicate NotAfter(a: MigrationFile, b: MigrationFile) { Compare(a.version, b.version) <= 0 }

  function ByVersion(): (MigrationFile, MigrationFile) -> bool { NotAfter }

  lemma VersionsArePreordered()
    ensures TotalPreorder(ByVersion())
  {
    forall a, b ensures ByVersion()(a, b) || ByVersion()(b, a) {
      CompareFlips(a.version, b.version);
    }
    forall a, b, c | ByVersion()(a, b) && ByVersion()(b, c) ensures ByVersion()(a, c) {
      CompareTransitive(a.version, b.version, c.version);
    }
  }

  // ---------- ordering a directory ----------

  /** Either the files in version order, or the groups of files that claim one version. */
  datatype Ordering = Ordered(files: seq<MigrationFile>) | Colliding(groups: map<string, seq<string>>)

  function ParseOne(file: string): seq<MigrationFile>
  {
    match ParseFile(file)
    case None => []
    case Some(m) => [m]
  }

  function ParsedFiles(files: seq<string>): seq<MigrationFile> { FlatMap(files, ParseOne) }

  function Under(key: string): MigrationFile -> seq<string>
  {
    (m: MigrationFile) => if SortKey(m.version) == key then [m.file] else []
  }

  /** The files under one key, in listing order. */
  function Sharing(parsed: seq<MigrationFile>, key: string): seq<string> { FlatMap(parsed, Under(key)) }

  ghost predicate Grouped(groups: map<string, seq<string>>, parsed: seq<MigrationFile>)
  {
    forall key :: (key in groups <==> Sharing(parsed, key) != []) &&
                  (key in groups ==> groups[key] == Sharing(parsed, key))
  }

  method ParseAll(files: seq<string>) returns (parsed: seq<MigrationFile>, byVersion: map<string, seq<string>>)
    ensures parsed == ParsedFiles(files) && Grouped(byVersion, parsed)
  {
    parsed, byVersion := [], map[];
    for i := 0 to |files|
      invariant parsed == ParsedFiles(files[..i])
      invariant Grouped(byVersion, parsed)
    {
      assert files[..i + 1] == files[..i] + [files[i]];
      FlatMapSnoc(files[..i], files[i], ParseOne);
      var m := ParseFile(files[i]);
      if m.Some? {
        var key := MakeSortKey(m.value.version);
        GroupOne(byVersion, parsed, m.value, key);
        parsed := parsed + [m.value];
        byVersion := byVersion[key := (if key in byVersion then byVersion[key] else []) + [m.value.file]];
      }
    }
    assert files[..|files|] == files;
  }

  lemma GroupOne(groups: map<string, seq<string>>, parsed: seq<MigrationFile>, m: MigrationFile, key: string)
    requires Grouped(groups, parsed) && key == SortKey(m.version)
    ensures Grouped(groups[key := (if key in groups then groups[key] else []) + [m.file]], parsed + [m])
  {
    forall k ensures Sharing(parsed + [m], k) == Sharing(parsed, k) + if key == k then [m.file] else [] {
      FlatMapSnoc(parsed, m, Under(k));
    }
    assert [] + [m.file] == [m.file];
  }

  method OrderMigrationFiles(files: seq<string>) returns (r: Ordering)
    ensures r == OrderFiles(files)
  {
    var parsed, byVersion := ParseAll(files);
    var collisions := map key | key in byVersion && |byVersion[key]| > 1 :: byVersion[key];
    CollisionsAre(byVersion, parsed, collisions);
    r := if collisions != map[] then Colliding(collisions) else Ordered(Sort(parsed, ByVersion()));
  }

  function KeyOf(m: MigrationFile): string { SortKey(m.version) }

  function Keys(parsed: seq<MigrationFile>): set<string> { KeySet(parsed, KeyOf) }

  function Collisions(parsed: seq<MigrationFile>): map<string, seq<string>>
  {
    map key | key in Keys(parsed) && |Sharing(parsed, key)| > 1 :: Sharing(parsed, key)
  }

  function OrderFiles(files: seq<string>): Ordering
  {
    var parsed := ParsedFiles(files);
    if Collisions(parsed) != map[] then Colliding(Collisions(parsed)) else Ordered(Sort(parsed, ByVersion()))
  }

  lemma SharingIsMember(parsed: seq<MigrationFile>, key: string)
    ensures Sharing(parsed, key) != [] <==> key in Keys(parsed)
  {
    KeysGive(parsed, KeyOf, Under(key), key);
  }

  lemma CollisionsAre(groups: map<string, seq<string>>, parsed: seq<MigrationFile>,
                      collisions: map<string, seq<string>>)
    requires Grouped(groups, parsed)
    requires collisions == map key | key in groups && |groups[key]| > 1 :: groups[key]
    ensures collisions == Collisions(parsed)
  {
    forall key ensures key in collisions <==> key in Collisions(parsed) {
      SharingIsMember(parsed, key);
    }
  }

  // ---------- when it fails, and what it gives otherwise ----------

  ghost predicate Tie(parsed: seq<MigrationFile>, i: nat, j: nat)
  {
    i < j < |parsed| && Compare(parsed[i].version, parsed[j].version) == 0
  }

  lemma SharingCount(parsed: seq<MigrationFile>, key: string)
    ensures |Sharing(parsed, key)| > 1 <==> exists i, j :: BothGive(parsed, Under(key), i, j)
  {
    FlatMapTwo(parsed, Under(key));
  }

  lemma TieIsShared(parsed: seq<MigrationFile>, i: nat, j: nat)
    requires i < j < |parsed|
    ensures Tie(parsed, i, j) <==> BothGive(parsed, Under(SortKey(parsed[i].version)), i, j)
  {
    KeyAgrees(parsed[i].version, parsed[j].version);
  }

  lemma TieCollides(parsed: seq<MigrationFile>, i: nat, j: nat)
    requires Tie(parsed, i, j)
    ensures Collisions(parsed) != map[]
  {
    var key := SortKey(parsed[i].version);
    TieIsShared(parsed, i, j);
    SharingCount(parsed, key);
    SharingIsMember(parsed, key);
    assert key in Collisions(parsed);
  }

  lemma CollisionIsTie(parsed: seq<MigrationFile>) returns (i: nat, j: nat)
    requires Collisions(parsed) != map[]
    ensures Tie(parsed, i, j)
  {
    var key :| key in Collisions(parsed);
    SharingCount(parsed, key);
    i, j :| BothGive(parsed, Under(key), i, j);
    TieIsShared(parsed, i, j);
  }

  /** Ordering fails exactly when two valid names carry versions that compare equal. */
  lemma FailsExactlyOnTies(files: seq<string>)
    ensures OrderFiles(files).Colliding? <==> exists i, j :: Tie(ParsedFiles(files), i, j)
  {
    var parsed := ParsedFiles(files);
    if Collisions(parsed) != map[] {
      var i, j := CollisionIsTie(parsed);
    }
    if i, j :| Tie(parsed, i, j) {
      TieCollides(parsed, i, j);
    }
  }

  ghost predicate Increasing(ms: seq<MigrationFile>)
  {
    forall i, j :: 0 <= i < j < |ms| ==> Compare(ms[i].version, ms[j].version) < 0
  }

  lemma SharingPermuted(xs: seq<MigrationFile>, ys: seq<MigrationFile>, key: string)
    requires multiset(xs) == multiset(ys)
    ensures multiset(Sharing(xs, key)) == multiset(Sharing(ys, key))
    ensures |Sharing(xs, key)| == |Sharing(ys, key)|
  {
    FlatMapPermuted(xs, ys, Under(key));
    SameSize(Sharing(xs, key), Sharing(ys, key));
  }

  /** Two groupings naming the same versions, each with the same files. */
  ghost predicate SameGroups(g: map<string, seq<string>>, h: map<string, seq<string>>)
  {
    g.Keys == h.Keys && forall key :: key in g ==> multiset(g[key]) == multiset(h[key])
  }

  lemma SameCollisions(xs: seq<MigrationFile>, ys: seq<MigrationFile>)
    requires multiset(xs) == multiset(ys)
    ensures SameGroups(Collisions(xs), Collisions(ys))
  {
    forall key ensures key in Collisions(xs) <==> key in Collisions(ys) {
      SharingPermuted(xs, ys, key);
      SharingIsMember(xs, key);
      SharingIsMember(ys, key);
    }
    forall key | key in Collisions(xs) ensures multiset(Collisions(xs)[key]) == multiset(Collisions(ys)[key]) {
      SharingPermuted(xs, ys, key);
    }
  }

  /** Rearranging a tie-free list cannot make a tie. */
  lemma NoTiesPermuted(xs: seq<MigrationFile>, ys: seq<MigrationFile>, i: nat, j: nat)
    requires multiset(xs) == multiset(ys) && Collisions(xs) == map[] && i < j < |ys|
    ensures Compare(ys[i].version, ys[j].version) != 0
  {
    SameCollisions(xs, ys);
    assert Collisions(ys).Keys == {};
    if Tie(ys, i, j) {
      TieCollides(ys, i, j);
    }
  }

  /** Otherwise the result holds every valid file once, in strictly increasing version order. */
  lemma OrderedIsIncreasing(files: seq<string>)
    requires OrderFiles(files).Ordered?
    ensures Increasing(OrderFiles(files).files)
    ensures multiset(OrderFiles(files).files) == multiset(ParsedFiles(files))
  {
    var parsed, sorted := ParsedFiles(files), OrderFiles(files).files;
    VersionsArePreordered();
    SortIsSorted(parsed, ByVersion());
    forall i, j | 0 <= i < j < |sorted| ensures Compare(sorted[i].version, sorted[j].version) < 0 {
      InVersionOrder(sorted, i, j);
      NoTiesPermuted(parsed, sorted, i, j);
    }
  }

  lemma InVersionOrder(sorted: seq<MigrationFile>, i: nat, j: nat)
    requires Sorted(sorted, ByVersion()) && i < j < |sorted|
    ensures Compare(sorted[i].version, sorted[j].version) <= 0
  {
    assert ByVersion()(sorted[i], sorted[j]);
  }

  // ---------- the listing order does not matter ----------

  lemma NoTiesAreEqual(xs: seq<MigrationFile>, sorted: seq<MigrationFile>, a: MigrationFile, b: MigrationFile)
    requires multiset(xs) == multiset(sorted) && Collisions(xs) == map[]
    requires a in sorted && b in sorted && NotAfter(a, b) && NotAfter(b, a)
    ensures a == b
  {
    CompareFlips(a.version, b.version);
    var i :| 0 <= i < |sorted| && sorted[i] == a;
    var j :| 0 <= j < |sorted| && sorted[j] == b;
    if i < j { NoTiesPermuted(xs, sorted, i, j); }
    if j < i { NoTiesPermuted(xs, sorted, j, i); }
  }

  lemma SameSorted(files: seq<string>, others: seq<string>)
    requires multiset(ParsedFiles(files)) == multiset(ParsedFiles(others))
    requires OrderFiles(files).Ordered? && OrderFiles(others).Ordered?
    ensures OrderFiles(files) == OrderFiles(others)
  {
    var xs, ys := ParsedFiles(files), ParsedFiles(others);
    VersionsArePreordered();
    SortIsSorted(xs, ByVersion());
    SortIsSorted(ys, ByVersion());
    var sorted := Sort(xs, ByVersion());
    forall a, b | a in sorted && b in sorted && ByVersion()(a, b) && ByVersion()(b, a) ensures a == b {
      NoTiesAreEqual(xs, sorted, a, b);
    }
    SortedUnique(sorted, Sort(ys, ByVersion()), ByVersion());
  }

  /** However a directory is listed, the outcome is the same: the same order, or the same collisions. */
  lemma ListingOrderDoesNotMatter(files: seq<string>, others: seq<string>)
    requires multiset(files) == multiset(others)
    ensures match OrderFiles(files)
            case Ordered(_) => OrderFiles(others) == OrderFiles(files)
            case Colliding(groups) =>
              OrderFiles(others).Colliding? && SameGroups(groups, OrderFiles(others).groups)
  {
    FlatMapPermuted(files, others, ParseOne);
    var g, h := Collisions(ParsedFiles(files)), Collisions(ParsedFiles(others));
    SameCollisions(ParsedFiles(files), ParsedFiles(others));
    assert g == map[] <==> g.Keys == {};
    assert h == map[] <==> h.Keys == {};
    if g == map[] { SameSorted(files, others); }
  }
}
