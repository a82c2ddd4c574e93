/** Findings on their way out, and the message that summarises a batch of them. */
module Digests {
  import opened Options
  import opened Sorting

  const MAX_LISTED_FINDINGS: nat := 8

  datatype Severity = Critical | High | Medium | Low | Info

  const SEVERITY_ORDER: seq<Severity> := [Critical, High, Medium, Low, Info]

  /** Position in SEVERITY_ORDER; lower is more urgent. */
  function Rank(s: Severity): nat
  {
    match s
    case Critical => 0
    case High => 1
    case Medium => 2
    case Low => 3
    case Info => 4
  }

  predicate MeetsThreshold(severity: Severity, threshold: Severity) { Rank(severity) <= Rank(threshold) }

  /** What a detector raised. */
  datatype Finding = Finding(
    kind: string, severity: Severity, dedupKey: string,
    sourceIp: Option<string>, targetIp: Option<string>, evidence: string
  )

  /** A sighting of a finding: how often, and between when and when. */
  datatype Sighting = Sighting(finding: Finding, occurrences: nat, firstSeen: int, lastSeen: int)

  datatype Notifiable = Notifiable(
    sensorId: string, kind: string, severity: Severity, sourceIp: Option<string>, targetIp: Option<string>,
    occurrences: nat, firstSeen: int, lastSeen: int, evidence: Option<string>
  )

  datatype Queued = Queued(finding: Notifiable, dedupKey: string)

  datatype Notification = Notification(
    severity: Severity, findings: seq<Notifiable>, omittedCount: nat, countsBySeverity: map<Severity, nat>
  )

  function ToNotifiable(s: Sighting, includeEvidence: bool, sensorId: string): Notifiable
  {
    Notifiable(sensorId, s.finding.kind, s.finding.severity, s.finding.sourceIp, s.finding.targetIp,
               s.occurrences, s.firstSeen, s.lastSeen,
               if includeEvidence then Some(s.finding.evidence) else None)
  }

  /** What leaves of a finding: all of it but the evidence, and that only where it may leave. */
  lemma NotifiableSays(s: Sighting, includeEvidence: bool, sensorId: string)
    ensures var n := ToNotifiable(s, includeEvidence, sensorId);
            n.sensorId == sensorId && n.kind == s.finding.kind && n.severity == s.finding.severity &&
            n.sourceIp == s.finding.sourceIp && n.targetIp == s.finding.targetIp && n.occurrences == s.occurrences &&
            n.firstSeen == s.firstSeen && n.lastSeen == s.lastSeen &&
            (n.evidence.Some? <==> includeEvidence) && (includeEvidence ==> n.evidence.value == s.finding.evidence)
  {
  }

  // ---------- counting ----------

  function CountOf(fs: seq<Notifiable>, s: Severity): nat
  {
    if fs == [] then 0 else CountOf(fs[..|fs| - 1], s) + if fs[|fs| - 1].severity == s then 1 else 0
  }

  /** One entry per severity present, holding how many. */
  ghost predicate CountsAre(counts: map<Severity, nat>, fs: seq<Notifiable>)
  {
    forall s :: (s in counts <==> CountOf(fs, s) > 0) && (s in counts ==> counts[s] == CountOf(fs, s))
  }

  function CountMap(fs: seq<Notifiable>): map<Severity, nat>
  {
    if fs == [] then map[] else
    var counts, s := CountMap(fs[..|fs| - 1]), fs[|fs| - 1].severity;
    counts[s := (if s in counts then counts[s] else 0) + 1]
  }

  lemma {:induction false} CountMapCounts(fs: seq<Notifiable>)
    ensures CountsAre(CountMap(fs), fs)
  {
    if fs != [] { CountMapCounts(fs[..|fs| - 1]); }
  }

  method CountSeverities(fs: seq<Notifiable>) returns (counts: map<Severity, nat>)
    ensures counts == CountMap(fs)
  {
    counts := map[];
    for i := 0 to |fs|
      invariant counts == CountMap(fs[..i])
    {
      assert fs[..i + 1][..i] == fs[..i];
      var s := fs[i].severity;
      counts := counts[s := (if s in counts then counts[s] else 0) + 1];
    }
    assert fs[..|fs|] == fs;
  }

  lemma {:induction false} CountOfMember(fs: seq<Notifiable>, s: Severity)
    ensures CountOf(fs, s) > 0 <==> exists i :: 0 <= i < |fs| && fs[i].severity == s
  {
    if fs != [] {
      var init := fs[..|fs| - 1];
      CountOfMember(init, s);
      assert forall i :: 0 <= i < |init| ==> init[i] == fs[i];
    }
  }

  // ---------- the digest ----------

  /** Most urgent first; of equal urgency, the more frequent first. */
  predicate MoreUrgent(a: Queued, b: Queued)
  {
    Rank(a.finding.severity) < Rank(b.finding.severity) ||
    (a.finding.severity == b.finding.severity && a.finding.occurrences >= b.finding.occurrences)
  }

  function Urgency(): (Queued, Queued) -> bool { MoreUrgent }

  function Findings(items: seq<Queued>): (fs: seq<Notifiable>)
    ensures |fs| == |items|
  {
    if items == [] then [] else Findings(items[..|items| - 1]) + [items[|items| - 1].finding]
  }

  lemma {:induction false} FindingsAt(items: seq<Queued>, i: nat)
    requires i < |items|
    ensures Findings(items)[i] == items[i].finding
  {
    if i < |items| - 1 { FindingsAt(items[..|items| - 1], i); }
  }

  function Listed(batch: seq<Queued>): seq<Queued>
  {
    var sorted := Sort(batch, Urgency());
    if |sorted| <= MAX_LISTED_FINDINGS then sorted else sorted[..MAX_LISTED_FINDINGS]
  }

  function Digest(batch: seq<Queued>, omittedCount: nat): Notification
  {
    var listed := Listed(batch);
    Notification(
      if listed == [] then Info else listed[0].finding.severity,
      Findings(listed),
      omittedCount + |batch| - |listed|,
      CountMap(Findings(batch)))
  }

  method BuildNotification(batch: seq<Queued>, omittedCount: nat) returns (n: Notification)
    ensures n == Digest(batch, omittedCount)
  {
    var counts := CountSeverities(Findings(batch));
    var sorted := Sort(batch, Urgency());
    var listed := if |sorted| <= MAX_LISTED_FINDINGS then sorted else sorted[..MAX_LISTED_FINDINGS];
    var truncated := |sorted| - |listed|;
    n := Notification(
      if listed == [] then Info else listed[0].finding.severity,
      Findings(listed), omittedCount + truncated, counts);
  }

  lemma UrgencyIsPreorder()
    ensures TotalPreorder(Urgency())
  {
  }

  /** `listed` is the eight most urgent of the batch, most urgent first, and `rest` the others. */
  ghost predicate MostUrgentFirst(batch: seq<Queued>, listed: seq<Queued>, rest: seq<Queued>)
  {
    multiset(listed) + multiset(rest) == multiset(batch) &&
    |listed| == (if |batch| < MAX_LISTED_FINDINGS then |batch| else MAX_LISTED_FINDINGS) &&
    Sorted(listed, Urgency()) &&
    forall a, b :: a in listed && b in rest ==> MoreUrgent(a, b)
  }

  lemma SplitSorted(sorted: seq<Queued>, n: nat, a: Queued, b: Queued)
    requires Sorted(sorted, Urgency()) && n <= |sorted|
    requires a in sorted[..n] && b in sorted[n..]
    ensures MoreUrgent(a, b)
  {
    var i :| 0 <= i < n && sorted[i] == a;
    var j :| n <= j < |sorted| && sorted[j] == b;
    assert Urgency()(sorted[i], sorted[j]);
  }

  lemma SortedPrefix(sorted: seq<Queued>, n: nat)
    requires Sorted(sorted, Urgency()) && n <= |sorted|
    ensures Sorted(sorted[..n], Urgency())
    ensures multiset(sorted[..n]) + multiset(sorted[n..]) == multiset(sorted)
  {
    assert sorted == sorted[..n] + sorted[n..];
  }

  lemma ListedIsMostUrgent(batch: seq<Queued>) returns (rest: seq<Queued>)
    ensures MostUrgentFirst(batch, Listed(batch), rest)
  {
    var sorted := Sort(batch, Urgency());
    UrgencyIsPreorder();
    SortIsSorted(batch, Urgency());
    var n := |Listed(batch)|;
    rest := sorted[n..];
    assert Listed(batch) == sorted[..n];
    SortedPrefix(sorted, n);
    forall a, b | a in sorted[..n] && b in sorted[n..] ensures MoreUrgent(a, b) {
      SplitSorted(sorted, n, a, b);
    }
  }

  /** In numbers: at most eight are listed, in order of severity and then of occurrences, and none left out comes
      before one that is listed. */
  ghost predicate Precedes(a: Queued, b: Queued)
  {
    exists i, j :: 0 <= i <= j < 5 && SEVERITY_ORDER[i] == a.finding.severity &&
                   SEVERITY_ORDER[j] == b.finding.severity &&
                   (i == j ==> a.finding.occurrences >= b.finding.occurrences)
  }

  lemma UrgencyIs(a: Queued, b: Queued)
    ensures MoreUrgent(a, b) <==> Precedes(a, b)
  {
    assert SEVERITY_ORDER[Rank(a.finding.severity)] == a.finding.severity;
    assert SEVERITY_ORDER[Rank(b.finding.severity)] == b.finding.severity;
  }

  lemma DigestLists(batch: seq<Queued>) returns (listed: seq<Queued>, rest: seq<Queued>)
    ensures |listed| == (if |batch| < 8 then |batch| else 8) && multiset(listed) + multiset(rest) == multiset(batch)
    ensures |Digest(batch, 0).findings| == |listed|
    ensures forall i :: 0 <= i < |listed| ==> Digest(batch, 0).findings[i] == listed[i].finding
    ensures forall i, j :: 0 <= i < j < |listed| ==> Precedes(listed[i], listed[j])
    ensures forall a, b :: a in listed && b in rest ==> Precedes(a, b)
  {
    rest := DigestSummarises(batch, 0);
    listed := Listed(batch);
    forall i, j | 0 <= i < j < |listed| ensures Precedes(listed[i], listed[j]) {
      assert Urgency()(listed[i], listed[j]);
      UrgencyIs(listed[i], listed[j]);
    }
    forall a, b | a in listed && b in rest ensures Precedes(a, b) { UrgencyIs(a, b); }
  }

  ghost predicate MostUrgentOf(severity: Severity, batch: seq<Queued>)
  {
    (exists k :: 0 <= k < |batch| && batch[k].finding.severity == severity) &&
    forall k :: 0 <= k < |batch| ==> Rank(severity) <= Rank(batch[k].finding.severity)
  }

  /** A digest accounts for every finding of its batch, leads with the eight most urgent, and
      carries the severity of the most urgent finding in the whole batch. */
  lemma DigestSummarises(batch: seq<Queued>, omittedCount: nat) returns (rest: seq<Queued>)
    ensures MostUrgentFirst(batch, Listed(batch), rest)
    ensures var n := Digest(batch, omittedCount);
            |n.findings| + n.omittedCount == |batch| + omittedCount &&
            CountsAre(n.countsBySeverity, Findings(batch)) &&
            (if batch == [] then n.severity == Info else MostUrgentOf(n.severity, batch))
    ensures forall i :: 0 <= i < |Listed(batch)| ==>
              Digest(batch, omittedCount).findings[i] == Listed(batch)[i].finding
  {
    rest := ListedIsMostUrgent(batch);
    CountMapCounts(Findings(batch));
    var listed := Listed(batch);
    forall i | 0 <= i < |listed| ensures Findings(listed)[i] == listed[i].finding {
      FindingsAt(listed, i);
    }
    if batch != [] { FirstIsMostUrgent(batch, Listed(batch), rest); }
  }

  lemma FirstIsMostUrgent(batch: seq<Queued>, listed: seq<Queued>, rest: seq<Queued>)
    requires MostUrgentFirst(batch, listed, rest) && batch != []
    ensures listed != [] && MostUrgentOf(listed[0].finding.severity, batch)
  {
    var first := listed[0];
    assert first in multiset(batch);
    forall k | 0 <= k < |batch| ensures Rank(first.finding.severity) <= Rank(batch[k].finding.severity) {
      assert batch[k] in multiset(batch);
      if batch[k] in listed {
        var i :| 0 <= i < |listed| && listed[i] == batch[k];
        assert i > 0 ==> Urgency()(listed[0], listed[i]);
      } else {
        assert batch[k] in multiset(rest);
        assert first in listed && batch[k] in rest;
        assert MoreUrgent(first, batch[k]);
      }
    }
  }

  // ---------- the export batch ----------

  /** The first level of SEVERITY_ORDER that was counted. */
  function FirstCounted(order: seq<Severity>, counts: map<Severity, nat>): Severity
  {
    if order == [] then Info
    else if order[0] in counts then order[0]
    else FirstCounted(order[1..], counts)
  }

  function ExportMessage(batch: seq<Notifiable>): Notification
  {
    Notification(FirstCounted(SEVERITY_ORDER, CountMap(batch)), batch, 0, CountMap(batch))
  }

  /** An export message holds the whole batch, in order, and omits nothing. */
  lemma ExportMessageSays(batch: seq<Notifiable>)
    ensures var n := ExportMessage(batch);
            n.findings == batch && n.omittedCount == 0 && CountsAre(n.countsBySeverity, batch)
  {
    CountMapCounts(batch);
  }

  method BuildExport(batch: seq<Notifiable>) returns (n: Notification)
    ensures n == ExportMessage(batch)
  {
    var counts := CountSeverities(batch);
    var i := 0;
    while i < |SEVERITY_ORDER| && SEVERITY_ORDER[i] !in counts
      invariant 0 <= i <= |SEVERITY_ORDER|
      invariant FirstCounted(SEVERITY_ORDER[i..], counts) == FirstCounted(SEVERITY_ORDER, counts)
    {
      assert SEVERITY_ORDER[i..][1..] == SEVERITY_ORDER[i + 1..];
      i := i + 1;
    }
    n := Notification(if i < |SEVERITY_ORDER| then SEVERITY_ORDER[i] else Info, batch, 0, counts);
  }

  lemma {:induction false} FirstCountedIsFirst(order: seq<Severity>, counts: map<Severity, nat>, i: nat)
    returns (k: nat)
    requires i < |order| && order[i] in counts
    ensures k <= i && FirstCounted(order, counts) == order[k] && order[k] in counts
  {
    if order[0] in counts {
      k := 0;
    } else {
      k := FirstCountedIsFirst(order[1..], counts, i - 1);
      k := k + 1;
    }
  }

  lemma FirstCountedIs(counts: map<Severity, nat>, u: Severity)
    requires u in counts
    ensures FirstCounted(SEVERITY_ORDER, counts) in counts
    ensures Rank(FirstCounted(SEVERITY_ORDER, counts)) <= Rank(u)
  {
    var k := FirstCountedIsFirst(SEVERITY_ORDER, counts, Rank(u));
    assert Rank(SEVERITY_ORDER[k]) == k;
  }

  lemma FirstCountedMostUrgent(fs: seq<Notifiable>) returns (i: nat)
    requires fs != []
    ensures i < |fs| && fs[i].severity == ExportMessage(fs).severity
    ensures forall k :: 0 <= k < |fs| ==> Rank(ExportMessage(fs).severity) <= Rank(fs[k].severity)
  {
    var s, counts := ExportMessage(fs).severity, CountMap(fs);
    CountMapCounts(fs);
    forall k | 0 <= k < |fs| ensures s in counts && Rank(s) <= Rank(fs[k].severity) {
      CountOfMember(fs, fs[k].severity);
      FirstCountedIs(counts, fs[k].severity);
    }
    assert Rank(s) <= Rank(fs[0].severity);
    CountOfMember(fs, s);
    i :| 0 <= i < |fs| && fs[i].severity == s;
  }

  lemma MostUrgentIsUnique(s: Severity, t: Severity, batch: seq<Queued>)
    requires MostUrgentOf(s, batch) && MostUrgentOf(t, batch)
    ensures s == t
  {
    var k :| 0 <= k < |batch| && batch[k].finding.severity == s;
    var j :| 0 <= j < |batch| && batch[j].finding.severity == t;
    assert Rank(s) == Rank(t);
  }

  /** The two ways of reporting a batch's severity agree. */
  lemma ExportSeverityIsMostUrgent(batch: seq<Queued>)
    requires batch != []
    ensures MostUrgentOf(ExportMessage(Findings(batch)).severity, batch)
    ensures ExportMessage(Findings(batch)).severity == Digest(batch, 0).severity
  {
    var fs := Findings(batch);
    var s := ExportMessage(fs).severity;
    var i := FirstCountedMostUrgent(fs);
    forall k | 0 <= k < |batch| ensures fs[k] == batch[k].finding {
      FindingsAt(batch, k);
    }
    assert batch[i].finding.severity == s;
    var rest := DigestSummarises(batch, 0);
    MostUrgentIsUnique(s, Digest(batch, 0).severity, batch);
  }
}
