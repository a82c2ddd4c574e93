/** Domain names: what the index accepts, and the walk from a name up to its parents. */
module Domains {
  import opened Options
  import opened Text

  const MAX_DOMAIN_LENGTH: nat := 253

  predicate IsNameChar(c: char)
  {
    'a' <= c <= 'z' || '0' <= c <= '9' || c == '.' || c == '_' || c == '-'
  }

  predicate IsTopLevel(tld: string)
  {
    tld != "" && 'a' <= tld[0] <= 'z' &&
    forall i :: 1 <= i < |tld| ==> IsNameChar(tld[i]) && tld[i] != '.' && tld[i] != '_'
  }

  function WithoutFinalDot(s: string): string
  {
    if s != "" && s[|s| - 1] == '.' then s[..|s| - 1] else s
  }

  function NormalizeDomain(name: string): Option<string>
  {
    var trimmed := WithoutFinalDot(ToLower(Trim(name)));
    if trimmed == "" || |trimmed| > MAX_DOMAIN_LENGTH then None
    else if '.' !in trimmed then None
    else if exists i :: 0 <= i < |trimmed| && !IsNameChar(trimmed[i]) then None
    else
      var labels := Split(trimmed, ".");
      if IsTopLevel(labels[|labels| - 1]) then Some(trimmed) else None
  }

  predicate IsLetter(c: char) { 'a' <= c <= 'z' }

  predicate IsLetterOrNumeral(c: char) { 'a' <= c <= 'z' || '0' <= c <= '9' }

  /** At most 253 of the plain letters, numerals, dots, hyphens and underscores; behind the last dot a
      label that begins with a letter and has no underscore. */
  ghost predicate IsHostName(d: string, front: string, last: string)
  {
    d == front + "." + last && |d| <= 253 &&
    (forall c :: c in front ==> IsLetterOrNumeral(c) || c in ".-_") &&
    last != "" && IsLetter(last[0]) && forall c :: c in last ==> IsLetterOrNumeral(c) || c == '-'
  }

  lemma HostNameChars(d: string, front: string, last: string)
    requires IsHostName(d, front, last)
    ensures (forall i :: 0 <= i < |d| ==> IsNameChar(d[i])) && '.' in d && IsTopLevel(last) && d[|d| - 1] != '.'
  {
    assert d[|front|] == '.';
    forall i | 0 <= i < |d| ensures IsNameChar(d[i]) { assert d[i] in front || d[i] == '.' || d[i] in last; }
    forall i | 1 <= i < |last| ensures IsNameChar(last[i]) && last[i] != '.' && last[i] != '_' {
      assert last[i] in last;
    }
    assert d[|d| - 1] == last[|last| - 1] && last[|last| - 1] in last;
  }

  lemma LastLabel(front: string, last: string)
    requires '.' !in last
    ensures var labels := Split(front + "." + last, "."); labels[|labels| - 1] == last
  {
    StartsNowhereChar(last, '.');
    SplitAt(front, '.', last);
    SplitWhole(last, ".");
  }

  lemma FinalDotTaken(text: string, d: string)
    requires d != "" && d[|d| - 1] != '.' && (text == d || text == d + ".")
    ensures WithoutFinalDot(text) == d
  {
  }

  lemma Normalised(name: string, d: string)
    requires d == WithoutFinalDot(ToLower(Trim(name))) && |d| <= MAX_DOMAIN_LENGTH && '.' in d
    requires forall i :: 0 <= i < |d| ==> IsNameChar(d[i])
    requires IsTopLevel(Split(d, ".")[|Split(d, ".")| - 1])
    ensures NormalizeDomain(name) == Some(d)
  {
  }

  /** A host name is read in any case, between any blanks, and with or without a final dot. */
  lemma HostNameAccepted(name: string, d: string, front: string, last: string)
    requires IsHostName(d, front, last)
    requires ToLower(Trim(name)) == d || ToLower(Trim(name)) == d + "."
    ensures NormalizeDomain(name) == Some(d)
  {
    HostNameChars(d, front, last);
    LastLabel(front, last);
    FinalDotTaken(ToLower(Trim(name)), d);
    Normalised(name, d);
  }

  lemma CutLastLabel(d: string) returns (front: string, last: string)
    requires '.' in d
    ensures d == front + "." + last && last == Split(d, ".")[|Split(d, ".")| - 1] && '.' !in last
  {
    var labels := Split(d, ".");
    var n := |labels| - 1;
    JoinSplit(d, ".");
    SplitParts(d, '.');
    last := labels[n];
    assert n > 0;
    front := Join(labels[..n], ".");
    assert labels == labels[..n] + [last];
    JoinConcat(labels[..n], [last], ".");
  }

  lemma HostNameFrom(d: string, front: string, last: string)
    requires d == front + "." + last && |d| <= 253 && IsTopLevel(last)
    requires forall i :: 0 <= i < |d| ==> IsNameChar(d[i])
    ensures IsHostName(d, front, last)
  {
    forall c | c in front ensures IsLetterOrNumeral(c) || c in ".-_" {
      var i :| 0 <= i < |front| && front[i] == c;
      assert d[i] == c;
    }
    forall c | c in last ensures IsLetterOrNumeral(c) || c == '-' {
      var i :| 0 <= i < |last| && last[i] == c;
    }
  }

  /** Nothing else is read. */
  lemma OnlyHostNames(name: string) returns (front: string, last: string)
    requires NormalizeDomain(name).Some?
    ensures var d := NormalizeDomain(name).value;
            IsHostName(d, front, last) && (ToLower(Trim(name)) == d || ToLower(Trim(name)) == d + ".")
  {
    front, last := CutLastLabel(NormalizeDomain(name).value);
    HostNameFrom(NormalizeDomain(name).value, front, last);
  }

  /** `d` is `name` itself or one of its parents. */
  ghost predicate IsDotSuffix(d: string, name: string)
  {
    d == name || exists p: string :: name == p + "." + d
  }

  /** The name that keeps the labels from `index` on. */
  function Parent(labels: seq<string>, index: nat): string
    requires index <= |labels|
  {
    Join(labels[index..], ".")
  }

  /** The walk over a name's parents, longest first; the last label alone is never tried. */
  function Walk<V>(labels: seq<string>, index: nat, listed: map<string, V>): Option<string>
    requires index <= |labels|
    decreases |labels| - index
  {
    if index + 1 >= |labels| then None
    else if Parent(labels, index) in listed then Some(Parent(labels, index))
    else Walk(labels, index + 1, listed)
  }

  method FindParent<V>(normalized: string, listed: map<string, V>) returns (r: Option<string>)
    ensures r == Walk(Split(normalized, "."), 0, listed)
  {
    var labels := Split(normalized, ".");
    var index := 0;
    while index < |labels| - 1
      invariant 0 <= index <= |labels|
      invariant Walk(labels, 0, listed) == Walk(labels, index, listed)
    {
      var candidate := Join(labels[index..], ".");
      if candidate in listed { return Some(candidate); }
      index := index + 1;
    }
    return None;
  }

  // ---------- the walk is the string-suffix predicate ----------

  lemma ParentIsSuffix(name: string, index: nat)
    requires index < |Split(name, ".")|
    ensures IsDotSuffix(Parent(Split(name, "."), index), name)
  {
    var labels := Split(name, ".");
    JoinSplit(name, ".");
    if index == 0 {
      assert labels[0..] == labels;
    } else {
      JoinConcat(labels[..index], labels[index..], ".");
      assert labels[..index] + labels[index..] == labels;
      assert name == Join(labels[..index], ".") + "." + Parent(labels, index);
    }
  }

  lemma SuffixIsParent(d: string, name: string) returns (index: nat)
    requires IsDotSuffix(d, name)
    ensures index + |Split(d, ".")| == |Split(name, ".")|
    ensures Parent(Split(name, "."), index) == d
  {
    JoinSplit(d, ".");
    if d == name {
      index := 0;
      assert Split(name, ".")[0..] == Split(name, ".");
    } else {
      var p: string :| name == p + "." + d;
      SplitAt(p, '.', d);
      index := |Split(p, ".")|;
      assert Split(name, ".")[index..] == Split(d, ".");
    }
  }

  lemma DottedHasTwoLabels(d: string)
    requires '.' in d
    ensures |Split(d, ".")| >= 2
  {
    JoinSplit(d, ".");
    SplitParts(d, '.');
    assert '.' !in Split(d, ".")[0];
  }

  lemma LaterIsShorter(labels: seq<string>, i: nat, j: nat)
    requires i < j < |labels|
    ensures |Parent(labels, j)| < |Parent(labels, i)|
  {
    JoinConcat(labels[i..j], labels[j..], ".");
    assert labels[i..j] + labels[j..] == labels[i..];
  }

  /** The first listed parent along the walk. */
  ghost predicate FirstListed<V>(labels: seq<string>, from: nat, k: nat, listed: map<string, V>)
  {
    from <= k && k + 1 < |labels| && Parent(labels, k) in listed &&
    forall j :: from <= j < k ==> Parent(labels, j) !in listed
  }

  lemma {:induction false} WalkIsFirst<V>(labels: seq<string>, index: nat, listed: map<string, V>) returns (k: nat)
    requires index <= |labels|
    ensures match Walk(labels, index, listed)
            case Some(d) => FirstListed(labels, index, k, listed) && d == Parent(labels, k)
            case None => forall j :: index <= j && j + 1 < |labels| ==> Parent(labels, j) !in listed
    decreases |labels| - index
  {
    k := index;
    if index + 1 < |labels| && Parent(labels, index) !in listed {
      k := WalkIsFirst(labels, index + 1, listed);
    }
  }

  /** The longest listed name that is the given name or one of its parents. */
  ghost predicate LongestListed<V>(d: string, name: string, listed: map<string, V>)
  {
    d in listed && IsDotSuffix(d, name) &&
    forall e :: e in listed && IsDotSuffix(e, name) ==> |e| <= |d|
  }

  /** The walk hits exactly when a listed name is the name or a parent of it, and hits the longest. */
  lemma WalkFindsLongest<V>(name: string, listed: map<string, V>)
    requires forall d :: d in listed ==> '.' in d
    ensures match Walk(Split(name, "."), 0, listed)
            case Some(d) => LongestListed(d, name, listed)
            case None => forall d :: d in listed ==> !IsDotSuffix(d, name)
  {
    var labels := Split(name, ".");
    var k := WalkIsFirst(labels, 0, listed);
    var found := Walk(labels, 0, listed);
    if found.Some? { ParentIsSuffix(name, k); }
    forall d | d in listed && IsDotSuffix(d, name)
      ensures found.Some? && |d| <= |found.value|
    {
      var i := SuffixIsParent(d, name);
      DottedHasTwoLabels(d);
      if k < i { LaterIsShorter(labels, k, i); }
    }
  }
}
