/** Which file names are migrations, and which of two comes first, without the program's own readers. */
module MigrationNames {
  import opened Options
  import opened Text
  import opened Migrations

  predicate IsDecimal(c: char) { '0' <= c <= '9' }

  predicate IsSeparator(c: char) { c == '.' || c == '_' }

  /** Decimal digits in runs, one dot or underscore between each two. */
  ghost predicate NumberedVersion(v: string)
  {
    v != "" && IsDecimal(v[0]) && IsDecimal(v[|v| - 1]) &&
    (forall i :: 0 <= i < |v| ==> IsDecimal(v[i]) || IsSeparator(v[i])) &&
    (forall i :: 0 <= i < |v| - 1 ==> IsDecimal(v[i]) || IsDecimal(v[i + 1]))
  }

  /** A name of one character or more, on one line. */
  ghost predicate OneLine(name: string)
  {
    name != "" && forall i :: 0 <= i < |name| ==> name[i] !in "\n\r\U{2028}\U{2029}"
  }


  ghost predicate AllNumbers(pieces: seq<string>)
  {
    forall i :: 0 <= i < |pieces| ==> pieces[i] != "" && AllDigits(10, pieces[i])
  }

  lemma NoSeparators(s: string)
    requires '_' !in s && '.' !in s
    ensures AllNumbers([s]) <==> NumberedVersion(s)
  {
    if AllNumbers([s]) {
      assert [s][0] != "" && AllDigits(10, [s][0]);
      assert forall i :: 0 <= i < |s| ==> IsDigit(10, s[i]);
    }
    if NumberedVersion(s) {
      forall i | 0 <= i < |s| ensures IsDigit(10, s[i]) { assert s[i] in s; }
    }
  }

  /** Cutting at the dots leaves digits only, and no empty piece, exactly when the text is made that way. */
  lemma {:induction false} PiecesAreNumbers(s: string)
    requires '_' !in s
    ensures AllNumbers(Split(s, ".")) <==> NumberedVersion(s)
  {
    if i :| 0 <= i < |s| && s[i] == '.' {
      var a, b := s[..i], s[i + 1..];
      assert s == a + ['.'] + b;
      SplitAt(a, '.', b);
      PiecesAreNumbers(a);
      PiecesAreNumbers(b);
      Joined(a, b);
      Appended(Split(a, "."), Split(b, "."));
    } else {
      StartsNowhereChar(s, '.');
      SplitWhole(s, ".");
      NoSeparators(s);
    }
  }

  lemma Appended(xs: seq<string>, ys: seq<string>)
    ensures AllNumbers(xs + ys) <==> AllNumbers(xs) && AllNumbers(ys)
  {
    if AllNumbers(xs + ys) {
      forall i | 0 <= i < |xs| ensures xs[i] != "" && AllDigits(10, xs[i]) { assert (xs + ys)[i] == xs[i]; }
      forall i | 0 <= i < |ys| ensures ys[i] != "" && AllDigits(10, ys[i]) { assert (xs + ys)[|xs| + i] == ys[i]; }
    }
  }

  lemma Joined(a: string, b: string)
    ensures NumberedVersion(a + "." + b) <==> NumberedVersion(a) && NumberedVersion(b)
  {
    var s := a + "." + b;
    if NumberedVersion(s) {
      assert s[|a|] == '.' && !IsDecimal('.');
      assert a != "" && b != "";
      assert s[|a| - 1] == a[|a| - 1] && s[|a|] == '.' && s[|a| + 1] == b[0];
      forall i | 0 <= i < |b| ensures IsDecimal(b[i]) || IsSeparator(b[i]) { assert s[|a| + 1 + i] == b[i]; }
      forall i | 0 <= i < |b| - 1 ensures IsDecimal(b[i]) || IsDecimal(b[i + 1]) {
        assert s[|a| + 1 + i] == b[i] && s[|a| + 1 + i + 1] == b[i + 1];
      }
      forall i | 0 <= i < |a| ensures IsDecimal(a[i]) || IsSeparator(a[i]) { assert s[i] == a[i]; }
      forall i | 0 <= i < |a| - 1 ensures IsDecimal(a[i]) || IsDecimal(a[i + 1]) {
        assert s[i] == a[i] && s[i + 1] == a[i + 1];
      }
    }
  }

  lemma VersionIs(version: string)
    ensures IsVersion(version) <==> NumberedVersion(version)
  {
    var d := Dotted(version);
    forall i | 0 <= i < |d| ensures d[i] != '_' && IsDecimal(d[i]) == IsDecimal(version[i]) &&
                                    IsSeparator(d[i]) == IsSeparator(version[i])
    {
      assert d[i] == if version[i] == '_' then '.' else version[i];
    }
    PiecesAreNumbers(d);
    SameShape(version, d);
    SameShape(d, version);
    assert IsVersion(version) <==> AllNumbers(Components(version)) by {
      assert forall i :: 0 <= i < |Components(version)| ==> Components(version)[i] in Components(version);
    }
  }

  lemma SameShape(v: string, w: string)
    requires |v| == |w|
    requires forall i :: 0 <= i < |v| ==> IsDecimal(v[i]) == IsDecimal(w[i]) && IsSeparator(v[i]) == IsSeparator(w[i])
    ensures NumberedVersion(v) ==> NumberedVersion(w)
  {
  }

  /** The name shown has a space for every underscore. */
  ghost predicate Shown(name: string, shown: string)
  {
    |shown| == |name| && forall i :: 0 <= i < |name| ==> shown[i] == if name[i] == '_' then ' ' else name[i]
  }

  /** A file is a migration exactly when it is `V`, a version, two underscores, a name on one line and
      `.sql`; it is then read as that version and that name. */
  lemma FileNameIs(file: string, m: MigrationFile)
    ensures ParseFile(file) == Some(m) <==>
            m.file == file && NumberedVersion(m.version) &&
            exists name :: file == "V" + m.version + "__" + name + ".sql" && OneLine(name) && Shown(name, m.name)
  {
    ParseFileIsThePattern(file, m);
    VersionIs(m.version);
    if name :| Matches(file, m.version, name) && m == MigrationFile(m.version, Spaced(name), file) {
      assert OneLine(name) && Shown(name, m.name);
    }
    if name :| m.file == file && NumberedVersion(m.version) &&
               file == "V" + m.version + "__" + name + ".sql" && OneLine(name) && Shown(name, m.name) {
      assert Spaced(name) == m.name;
      assert Matches(file, m.version, name);
    }
  }

  // ---------- which comes first ----------

  /** The numbers of a version: its runs of digits, in decimal. */
  lemma NumbersAre(version: string, runs: seq<string>, k: nat)
    requires |runs| >= 1 && forall i :: 0 <= i < |runs| ==> '.' !in runs[i]
    requires Dotted(version) == Join(runs, ".") && k < |runs|
    ensures |Parts(version)| == |runs| && Parts(version)[k] == Parse(10, runs[k])
  {
    SplitJoin(runs, '.');
  }

  /** At the first number that differs the first version has the smaller one; a missing number is zero. */
  ghost predicate Earlier(a: string, b: string)
  {
    exists k: nat :: NumberAt(a, k) < NumberAt(b, k) && forall j: nat :: j < k ==> NumberAt(a, j) == NumberAt(b, j)
  }

  function NumberAt(version: string, k: nat): nat
  {
    if k < |Parts(version)| then Parts(version)[k] else 0
  }

  lemma {:induction false} DifferenceIs(xs: seq<nat>, ys: seq<nat>, i: nat, n: nat) returns (k: nat)
    requires i <= n && Difference(xs, ys, i, n) != 0
    ensures i <= k < n && (forall j :: i <= j < k ==> At(xs, j) == At(ys, j))
    ensures if Difference(xs, ys, i, n) < 0 then At(xs, k) < At(ys, k) else At(xs, k) > At(ys, k)
    decreases n - i
  {
    k := i;
    if At(xs, i) == At(ys, i) { k := DifferenceIs(xs, ys, i + 1, n); }
  }

  lemma FirstDifference(a: string, b: string) returns (k: nat)
    requires Compare(a, b) != 0
    ensures forall j :: 0 <= j < k ==> NumberAt(a, j) == NumberAt(b, j)
    ensures if Compare(a, b) < 0 then NumberAt(a, k) < NumberAt(b, k) else NumberAt(a, k) > NumberAt(b, k)
  {
    k := DifferenceIs(Parts(a), Parts(b), 0, Longer(Parts(a), Parts(b)));
    forall j | 0 <= j < k ensures NumberAt(a, j) == NumberAt(b, j) {
      assert At(Parts(a), j) == At(Parts(b), j);
    }
  }

  /** The comparison orders versions by their numbers. */
  lemma ComparesNumbers(a: string, b: string)
    ensures Compare(a, b) < 0 <==> Earlier(a, b)
    ensures Compare(a, b) == 0 <==> forall k: nat :: NumberAt(a, k) == NumberAt(b, k)
  {
    CompareZero(a, b);
    assert forall k: nat :: NumberAt(a, k) == At(Parts(a), k) && NumberAt(b, k) == At(Parts(b), k);
    if Compare(a, b) != 0 {
      var k := FirstDifference(a, b);
      assert NumberAt(a, k) != NumberAt(b, k);
      if k' : nat :| NumberAt(a, k') < NumberAt(b, k') && forall j: nat :: j < k' ==> NumberAt(a, j) == NumberAt(b, j) {
        assert k <= k';
        assert k' <= k;
      }
    }
  }

  /** Migrations run from the smallest version to the largest. */
  lemma OrderedByNumbers(listing: seq<string>, i: nat, j: nat)
    requires OrderFiles(listing).Ordered? && i < j < |OrderFiles(listing).files|
    ensures Earlier(OrderFiles(listing).files[i].version, OrderFiles(listing).files[j].version)
  {
    OrderedIsIncreasing(listing);
    ComparesNumbers(OrderFiles(listing).files[i].version, OrderFiles(listing).files[j].version);
  }
}
