/**
 Whole runs of the indicator index: whatever is added and however often it is sealed, a
 lookup answers as a scan over everything accepted would.
 */
module IndicatorRuns {
  import opened Options
  import opened Radix
  import opened Text
  import opened Addresses
  import opened AddressText
  import opened Cidr
  import opened Sorting
  import opened Ranges
  import opened Domains
  import opened Indicators

  datatype Op = Add(indicator: Indicator) | Seal

  /** An accepted indicator, with what it denotes. */
  datatype Logged = Logged(indicator: Indicator, entry: Entry)

  datatype Loaded = Loaded(index: Index, log: seq<Logged>)

  function Log(log: seq<Logged>, i: Indicator, e: Option<Entry>): seq<Logged>
  {
    match e
    case None => log
    case Some(entry) => log + [Logged(i, entry)]
  }

  function Step(max: nat, l: Loaded, op: Op): Loaded
  {
    match op
    case Seal => l.(index := AfterSeal(l.index))
    case Add(i) =>
      Loaded(Added(l.index, max, i), if Full(l.index, max) then l.log else Log(l.log, i, EntryOf(i)))
  }

  function Run(max: nat, ops: seq<Op>): Loaded
  {
    if ops == [] then Loaded(EMPTY_INDEX, []) else Step(max, Run(max, ops[..|ops| - 1]), ops[|ops| - 1])
  }

  // ---------- what the log says ----------

  /** The attribution of the newest accepted entry for `e`: a later feed replaces an earlier one. */
  function Newest(log: seq<Logged>, e: Entry): Option<Meta>
  {
    if log == [] then None
    else if log[|log| - 1].entry == e then Some(MetaOf(log[|log| - 1].indicator))
    else Newest(log[..|log| - 1], e)
  }

  function BlockOf(l: Logged): seq<Range>
  {
    if l.entry.Addresses? then [RangeOf(l.indicator, l.entry.start, l.entry.end)] else []
  }

  /** The accepted CIDRs, in order. */
  function Blocks(log: seq<Logged>): seq<Range>
  {
    if log == [] then [] else Blocks(log[..|log| - 1]) + BlockOf(log[|log| - 1])
  }

  function CountFrom(log: seq<Logged>, source: string): nat
  {
    if log == [] then 0
    else CountFrom(log[..|log| - 1], source) + if log[|log| - 1].indicator.source == source then 1 else 0
  }

  function Adds(ops: seq<Op>): nat
  {
    if ops == [] then 0 else Adds(ops[..|ops| - 1]) + if ops[|ops| - 1].Add? then 1 else 0
  }

  // ---------- the invariant ----------

  ghost predicate TablesAgree(s: Index, log: seq<Logged>)
  {
    (forall v :: Get(s.ipv4, v) == Newest(log, Host4(v))) &&
    (forall v :: Get(s.ipv6, v) == Newest(log, Host6(v))) &&
    (forall d :: Get(s.domains, d) == Newest(log, Domain(d)))
  }

  /** The accepted blocks split into a sealed part, held merged, and a pending part. */
  ghost predicate SplitAsSealed(ranges: seq<Range>, pending: seq<Range>, blocks: seq<Range>)
  {
    |pending| <= |blocks| &&
    pending == blocks[|blocks| - |pending|..] &&
    ranges == Sealed(blocks[..|blocks| - |pending|]) &&
    NonEmpty(blocks)
  }

  ghost predicate RangesAgree(s: Index, log: seq<Logged>)
  {
    SplitAsSealed(s.ranges, s.pending, Blocks(log))
  }

  ghost predicate CountsAgree(s: Index, log: seq<Logged>)
  {
    forall source :: Tally(s.bySource, source) == CountFrom(log, source)
  }

  ghost predicate WellFormedEntry(e: Entry)
  {
    match e
    case Addresses(start, end) => start <= end
    case Domain(d) => '.' in d
    case _ => true
  }

  ghost predicate WellFormedLog(log: seq<Logged>)
  {
    forall k :: 0 <= k < |log| ==> WellFormedEntry(log[k].entry)
  }

  lemma NewestSnoc(log: seq<Logged>, i: Indicator, e: Entry, key: Entry)
    ensures Newest(log + [Logged(i, e)], key) == if e == key then Some(MetaOf(i)) else Newest(log, key)
  {
    assert (log + [Logged(i, e)])[..|log|] == log;
  }

  lemma RecordKeepsTables(s: Index, log: seq<Logged>, i: Indicator, e: Entry)
    requires TablesAgree(s, log)
    ensures TablesAgree(Record(s, i, e), log + [Logged(i, e)])
  {
    var next, longer := Record(s, i, e), log + [Logged(i, e)];
    forall v ensures Get(next.ipv4, v) == Newest(longer, Host4(v)) { NewestSnoc(log, i, e, Host4(v)); }
    forall v ensures Get(next.ipv6, v) == Newest(longer, Host6(v)) { NewestSnoc(log, i, e, Host6(v)); }
    forall d ensures Get(next.domains, d) == Newest(longer, Domain(d)) { NewestSnoc(log, i, e, Domain(d)); }
  }

  lemma BlocksSnoc(log: seq<Logged>, i: Indicator, e: Entry)
    ensures Blocks(log + [Logged(i, e)]) == Blocks(log) + BlockOf(Logged(i, e))
  {
    assert (log + [Logged(i, e)])[..|log|] == log;
  }

  lemma RecordKeepsRanges(s: Index, log: seq<Logged>, i: Indicator, e: Entry)
    requires RangesAgree(s, log) && WellFormedEntry(e)
    ensures RangesAgree(Record(s, i, e), log + [Logged(i, e)])
  {
    BlocksSnoc(log, i, e);
    if e.Addresses? {
      PendingSnoc(s.ranges, s.pending, Blocks(log), RangeOf(i, e.start, e.end));
    } else {
      assert Blocks(log) + [] == Blocks(log);
    }
  }

  lemma PendingSnoc(ranges: seq<Range>, pending: seq<Range>, blocks: seq<Range>, r: Range)
    requires SplitAsSealed(ranges, pending, blocks) && r.start <= r.end
    ensures SplitAsSealed(ranges, pending + [r], blocks + [r])
  {
    var n := |blocks| - |pending|;
    assert (blocks + [r])[..n] == blocks[..n] && (blocks + [r])[n..] == blocks[n..] + [r];
  }

  lemma CountKeeps(s: Index, log: seq<Logged>, i: Indicator, e: Entry)
    requires CountsAgree(s, log)
    ensures CountsAgree(Count(Record(s, i, e), i.source), log + [Logged(i, e)])
  {
    var longer := log + [Logged(i, e)];
    assert longer[..|log|] == log;
    assert Record(s, i, e).bySource == s.bySource;
    forall source
      ensures Tally(Count(Record(s, i, e), i.source).bySource, source) == CountFrom(longer, source)
    {
      assert Tally(s.bySource, source) == CountFrom(log, source);
    }
  }

  lemma ResealBlocks(blocks: seq<Range>, n: nat)
    requires n <= |blocks| && NonEmpty(blocks)
    ensures Sealed(Sealed(blocks[..n]) + blocks[n..]) == Sealed(blocks)
    ensures blocks[..|blocks|] == blocks && blocks[|blocks|..] == []
  {
    assert blocks == blocks[..n] + blocks[n..];
    BatchesDoNotMatter(blocks[..n], blocks[n..]);
  }

  lemma SealSplit(ranges: seq<Range>, pending: seq<Range>, blocks: seq<Range>)
    requires SplitAsSealed(ranges, pending, blocks)
    ensures SplitAsSealed(Sealed(ranges + pending), [], blocks)
  {
    ResealBlocks(blocks, |blocks| - |pending|);
  }

  lemma SealKeepsRanges(s: Index, log: seq<Logged>)
    requires RangesAgree(s, log)
    ensures RangesAgree(AfterSeal(s), log)
  {
    if s.pending != [] {
      SealSplit(s.ranges, s.pending, Blocks(log));
    }
  }

  lemma {:induction false} MergeShrinks(sorted: seq<Range>)
    ensures |Merge(sorted)| <= |sorted|
  {
    if sorted != [] { MergeShrinks(sorted[..|sorted| - 1]); }
  }

  /** Every state a run reaches agrees with its log, and never outgrows its capacity. */
  ghost predicate Consistent(max: nat, l: Loaded)
  {
    TablesAgree(l.index, l.log) && RangesAgree(l.index, l.log) && CountsAgree(l.index, l.log) &&
    WellFormedLog(l.log) && Size(l.index) + |l.index.pending| <= max
  }

  lemma EntriesAreWellFormed(i: Indicator)
    requires EntryOf(i).Some?
    ensures WellFormedEntry(EntryOf(i).value)
  {
    match i.kind {
      case Block =>
        var base, bits := ParsedBlock(i.value);
      case _ =>
    }
  }

  lemma RecordConsistent(max: nat, l: Loaded, i: Indicator, e: Entry)
    requires Consistent(max, l) && !Full(l.index, max) && WellFormedEntry(e)
    ensures Consistent(max, Loaded(Count(Record(l.index, i, e), i.source), l.log + [Logged(i, e)]))
  {
    RecordKeepsTables(l.index, l.log, i, e);
    RecordKeepsRanges(l.index, l.log, i, e);
    CountKeeps(l.index, l.log, i, e);
    RecordGrowsByOne(l.index, i, e);
  }

  lemma RecordGrowsByOne(s: Index, i: Indicator, e: Entry)
    ensures Size(Record(s, i, e)) + |Record(s, i, e).pending| <= Size(s) + |s.pending| + 1
  {
  }

  lemma SealConsistent(max: nat, l: Loaded)
    requires Consistent(max, l)
    ensures Consistent(max, l.(index := AfterSeal(l.index)))
  {
    SealKeepsRanges(l.index, l.log);
    MergeShrinks(Sort(l.index.ranges + l.index.pending, ByStart()));
  }

  lemma StepConsistent(max: nat, l: Loaded, op: Op)
    requires Consistent(max, l)
    ensures Consistent(max, Step(max, l, op))
  {
    match op {
      case Seal => SealConsistent(max, l);
      case Add(i) =>
        if EntryOf(i).Some? { EntriesAreWellFormed(i); }
        AddCases(l, max, i, EntryOf(i));
        AddConsistent(max, l, i, EntryOf(i), AddedTo(l, max, i, EntryOf(i)));
    }
  }

  /** The same step with what the indicator denotes kept apart. */
  function AddedAs(s: Index, max: nat, i: Indicator, e: Option<Entry>): Index
  {
    if !Full(s, max) && e.Some? then Count(Record(s, i, e.value), i.source) else s.(rejected := s.rejected + 1)
  }

  function AddedTo(l: Loaded, max: nat, i: Indicator, e: Option<Entry>): Loaded
  {
    Loaded(AddedAs(l.index, max, i, e), if Full(l.index, max) then l.log else Log(l.log, i, e))
  }

  lemma AddCases(l: Loaded, max: nat, i: Indicator, e: Option<Entry>)
    ensures AddedTo(l, max, i, e) ==
            if !Full(l.index, max) && e.Some?
            then Loaded(Count(Record(l.index, i, e.value), i.source), l.log + [Logged(i, e.value)])
            else l.(index := l.index.(rejected := l.index.rejected + 1))
  {
  }

  lemma AddConsistent(max: nat, l: Loaded, i: Indicator, e: Option<Entry>, next: Loaded)
    requires Consistent(max, l) && (e.Some? ==> WellFormedEntry(e.value))
    requires next == if !Full(l.index, max) && e.Some?
                     then Loaded(Count(Record(l.index, i, e.value), i.source), l.log + [Logged(i, e.value)])
                     else l.(index := l.index.(rejected := l.index.rejected + 1))
    ensures Consistent(max, next)
  {
    if !Full(l.index, max) && e.Some? {
      RecordConsistent(max, l, i, e.value);
    } else {
      RejectConsistent(max, l);
    }
  }

  lemma RejectConsistent(max: nat, l: Loaded)
    requires Consistent(max, l)
    ensures Consistent(max, l.(index := l.index.(rejected := l.index.rejected + 1)))
  {
  }

  lemma {:induction false} RunsAreConsistent(max: nat, ops: seq<Op>)
    ensures Consistent(max, Run(max, ops))
  {
    if ops == [] {
      assert Sort<Range>([], ByStart()) == [];
    } else {
      RunsAreConsistent(max, ops[..|ops| - 1]);
      StepConsistent(max, Run(max, ops[..|ops| - 1]), ops[|ops| - 1]);
    }
  }

  // ---------- nothing is lost below capacity ----------

  /** What each add did: refused and counted, or logged. */
  lemma {:induction false} AddsAreLoggedOrRejected(max: nat, ops: seq<Op>)
    ensures Run(max, ops).index.rejected + |Run(max, ops).log| == Adds(ops)
    ensures Size(Run(max, ops).index) + |Run(max, ops).index.pending| <= |Run(max, ops).log|
  {
    if ops != [] {
      AddsAreLoggedOrRejected(max, ops[..|ops| - 1]);
      var l, op := Run(max, ops[..|ops| - 1]), ops[|ops| - 1];
      match op {
        case Seal => MergeShrinks(Sort(l.index.ranges + l.index.pending, ByStart()));
        case Add(i) => AddIsCounted(max, l, i, EntryOf(i));
      }
    }
  }

  lemma AddIsCounted(max: nat, l: Loaded, i: Indicator, e: Option<Entry>)
    ensures var log := if Full(l.index, max) then l.log else Log(l.log, i, e);
            var next := AddedAs(l.index, max, i, e);
            next.rejected + |log| == l.index.rejected + |l.log| + 1 &&
            Size(next) + |next.pending| <= Size(l.index) + |l.index.pending| + |log| - |l.log|
  {
    if e.Some? {
      RecordGrowsByOne(l.index, i, e.value);
    }
  }

  ghost predicate InLog(log: seq<Logged>, i: Indicator, e: Entry)
  {
    exists k :: 0 <= k < |log| && log[k] == Logged(i, e)
  }

  lemma LogKeeps(log: seq<Logged>, i: Indicator, e: Option<Entry>, j: Indicator, f: Entry)
    ensures InLog(Log(log, i, e), j, f) <==> InLog(log, j, f) || (i == j && e == Some(f))
  {
    var longer := Log(log, i, e);
    if InLog(log, j, f) {
      var k :| 0 <= k < |log| && log[k] == Logged(j, f);
      assert longer[k] == Logged(j, f);
    }
    if e.Some? {
      assert longer[|log|] == Logged(i, e.value);
    }
  }

  /** Below capacity the log holds exactly the well-formed indicators that were added. */
  lemma {:induction false} NothingRefused(max: nat, ops: seq<Op>, i: Indicator, e: Entry)
    requires Adds(ops) <= max
    ensures InLog(Run(max, ops).log, i, e) <==> Add(i) in ops && EntryOf(i) == Some(e)
  {
    if ops != [] {
      var init, op := ops[..|ops| - 1], ops[|ops| - 1];
      assert ops == init + [op];
      NothingRefused(max, init, i, e);
      AddsAreLoggedOrRejected(max, init);
      match op {
        case Seal =>
        case Add(j) => LogKeeps(Run(max, init).log, j, EntryOf(j), i, e);
      }
    }
  }

  // ---------- membership ----------

  lemma {:induction false} NewestIsLogged(log: seq<Logged>, e: Entry)
    ensures Newest(log, e).Some? <==> exists k :: 0 <= k < |log| && log[k].entry == e
  {
    if log != [] {
      var init := log[..|log| - 1];
      NewestIsLogged(init, e);
      assert forall k :: 0 <= k < |init| ==> init[k] == log[k];
    }
  }

  ghost predicate InBlock(l: Logged, v: int)
  {
    l.entry.Addresses? && l.entry.start <= v <= l.entry.end
  }

  lemma {:induction false} BlocksCover(log: seq<Logged>, v: int)
    ensures Covers(Blocks(log), v) <==> exists k :: 0 <= k < |log| && InBlock(log[k], v)
  {
    if log != [] {
      var init, last := log[..|log| - 1], log[|log| - 1];
      BlocksCover(init, v);
      CoversConcat(Blocks(init), BlockOf(last), v);
      CoversOne(last, v);
      assert forall k :: 0 <= k < |init| ==> init[k] == log[k];
    }
  }

  lemma CoversOne(l: Logged, v: int)
    ensures Covers(BlockOf(l), v) <==> InBlock(l, v)
  {
    if InBlock(l, v) {
      assert BlockOf(l)[0].start <= v <= BlockOf(l)[0].end;
    }
  }

  // ---------- addresses ----------

  /** The accepted indicators that name an IPv4 address, exactly or by a block. */
  ghost predicate Names(l: Logged, v: nat) { l.entry == Host4(v) || InBlock(l, v) }

  ghost predicate SealedRun(max: nat, ops: seq<Op>) { Run(max, ops).index.pending == [] }

  lemma SealedRanges(max: nat, ops: seq<Op>)
    requires SealedRun(max, ops)
    ensures NonEmpty(Blocks(Run(max, ops).log))
    ensures Run(max, ops).index.ranges == Sealed(Blocks(Run(max, ops).log))
  {
    RunsAreConsistent(max, ops);
    var blocks := Blocks(Run(max, ops).log);
    assert blocks[..|blocks|] == blocks;
  }

  /** After a seal, an IPv4 lookup hits exactly when some accepted indicator names the address. */
  lemma MatchIpIsScan(max: nat, ops: seq<Op>, address: string, v: nat)
    requires SealedRun(max, ops) && ':' !in address && Ipv4ToInt(address) == Some(v)
    ensures var l := Run(max, ops);
            LookupIp(l.index, address).Some? <==> exists k :: 0 <= k < |l.log| && Names(l.log[k], v)
  {
    var l := Run(max, ops);
    RunsAreConsistent(max, ops);
    SealedRanges(max, ops);
    LookupV4IsScan(l.index, l.log, address, v);
  }

  lemma LookupV4IsScan(s: Index, log: seq<Logged>, address: string, v: nat)
    requires TablesAgree(s, log) && NonEmpty(Blocks(log)) && s.ranges == Sealed(Blocks(log))
    ensures LookupV4(s, address, v).Some? <==> exists k :: 0 <= k < |log| && Names(log[k], v)
  {
    assert Get(s.ipv4, v) == Newest(log, Host4(v));
    SealedIsNormal(Blocks(log));
    ScanCovers(s.ranges, v);
    NewestIsLogged(log, Host4(v));
    BlocksCover(log, v);
    assert forall k :: 0 <= k < |log| && InBlock(log[k], v) ==> Names(log[k], v);
    assert forall k :: 0 <= k < |log| && log[k].entry == Host4(v) ==> Names(log[k], v);
  }

  /** Whose word a block match is given on: the first entry at the left end of the covered stretch. */
  ghost predicate Attribution(log: seq<Logged>, v: int, m: Match, start: int)
  {
    start <= v && !Covers(Blocks(log), start - 1) &&
    (forall u :: start <= u <= v ==> Covers(Blocks(log), u)) &&
    m.kind == Block && FirstAt(Blocks(log), start) == Some(Tag(m.meta.source, m.meta.note, m.indicator))
  }

  /** A host listed by itself is reported on the newest feed's word; a block as `Attribution` says. */
  lemma MatchIpAttribution(max: nat, ops: seq<Op>, address: string, v: nat) returns (start: int)
    requires SealedRun(max, ops) && ':' !in address && Ipv4ToInt(address) == Some(v)
    requires LookupIp(Run(max, ops).index, address).Some?
    ensures var l := Run(max, ops);
            var m := LookupIp(l.index, address).value;
            m.observed == address &&
            match Newest(l.log, Host4(v))
            case Some(meta) => m == Match(address, address, V4, meta)
            case None => Attribution(l.log, v, m, start)
  {
    var l := Run(max, ops);
    RunsAreConsistent(max, ops);
    SealedRanges(max, ops);
    start := LookupV4Attribution(l.index, l.log, address, v);
  }

  lemma LookupV4Attribution(s: Index, log: seq<Logged>, address: string, v: nat) returns (start: int)
    requires TablesAgree(s, log) && NonEmpty(Blocks(log)) && s.ranges == Sealed(Blocks(log))
    requires LookupV4(s, address, v).Some?
    ensures var m := LookupV4(s, address, v).value;
            m.observed == address &&
            match Newest(log, Host4(v))
            case Some(meta) => m == Match(address, address, V4, meta)
            case None => Attribution(log, v, m, start)
  {
    start := 0;
    assert Get(s.ipv4, v) == Newest(log, Host4(v));
    if Newest(log, Host4(v)).None? {
      start := ScanAttribution(Blocks(log), v);
    }
  }

  lemma ScanAttribution(blocks: seq<Range>, v: int) returns (start: int)
    requires NonEmpty(blocks) && Scan(Sealed(blocks), v).Some?
    ensures start <= v && !Covers(blocks, start - 1) && forall u :: start <= u <= v ==> Covers(blocks, u)
    ensures FirstAt(blocks, start) == Some(Scan(Sealed(blocks), v).value.tag)
  {
    var rs := Sealed(blocks);
    SealedIsNormal(blocks);
    ScanCovers(rs, v);
    var i :| 0 <= i < |rs| && rs[i] == Scan(rs, v).value;
    SealedStarts(blocks, i);
    start := rs[i].start;
    forall u | start <= u <= v ensures Covers(blocks, u) {
      CoversBy(rs, i, u);
    }
  }

  /** An IPv6 lookup hits exactly when some accepted indicator canonicalises to the same text. */
  lemma MatchIpv6IsScan(max: nat, ops: seq<Op>, address: string)
    requires ':' in address
    ensures var l := Run(max, ops);
            var m := LookupIp(l.index, address);
            (m.Some? <==> CanonicalIpv6(address).Some? &&
                          exists k :: 0 <= k < |l.log| && l.log[k].entry == Host6(CanonicalIpv6(address).value)) &&
            (m.Some? ==> m.value.observed == address && m.value.kind == V6 &&
                         m.value.indicator == CanonicalIpv6(address).value &&
                         Newest(l.log, Host6(m.value.indicator)) == Some(m.value.meta))
  {
    var l := Run(max, ops);
    RunsAreConsistent(max, ops);
    if CanonicalIpv6(address).Some? {
      var canonical := CanonicalIpv6(address).value;
      assert Get(l.index.ipv6, canonical) == Newest(l.log, Host6(canonical));
      NewestIsLogged(l.log, Host6(canonical));
    }
  }

  // ---------- domains ----------

  ghost predicate NamesDomain(l: Logged, name: string)
  {
    l.entry.Domain? && IsDotSuffix(l.entry.name, name)
  }

  lemma ListedAreLogged(s: Index, log: seq<Logged>, d: string)
    requires TablesAgree(s, log) && WellFormedLog(log)
    ensures d in s.domains <==> exists k :: 0 <= k < |log| && log[k].entry == Domain(d)
    ensures d in s.domains ==> '.' in d && Newest(log, Domain(d)) == Some(s.domains[d])
  {
    assert Get(s.domains, d) == Newest(log, Domain(d));
    NewestIsLogged(log, Domain(d));
  }

  /** A domain lookup hits exactly when an accepted domain is the name or a parent of it. */
  lemma MatchDomainIsScan(max: nat, ops: seq<Op>, name: string, normalized: string)
    requires NormalizeDomain(name) == Some(normalized)
    ensures var l := Run(max, ops);
            var m := LookupDomain(l.index, name);
            (m.Some? <==> exists k :: 0 <= k < |l.log| && NamesDomain(l.log[k], normalized)) &&
            (m.Some? ==> m.value.observed == normalized && m.value.kind == Name &&
                         LongestListed(m.value.indicator, normalized, l.index.domains) &&
                         Newest(l.log, Domain(m.value.indicator)) == Some(m.value.meta))
  {
    RunsAreConsistent(max, ops);
    LookupDomainIsScan(Run(max, ops).index, Run(max, ops).log, normalized);
  }

  lemma LookupDomainIsScan(s: Index, log: seq<Logged>, normalized: string)
    requires TablesAgree(s, log) && WellFormedLog(log)
    ensures var found := Walk(Split(normalized, "."), 0, s.domains);
            (found.Some? <==> exists k :: 0 <= k < |log| && NamesDomain(log[k], normalized)) &&
            (found.Some? ==> LongestListed(found.value, normalized, s.domains) &&
                             Newest(log, Domain(found.value)) == Some(s.domains[found.value]))
  {
    var found := Walk(Split(normalized, "."), 0, s.domains);
    forall d | d in s.domains ensures '.' in d { ListedAreLogged(s, log, d); }
    WalkFindsLongest(normalized, s.domains);
    if found.Some? {
      ListedAreLogged(s, log, found.value);
      var k :| 0 <= k < |log| && log[k].entry == Domain(found.value);
      assert NamesDomain(log[k], normalized);
    }
    if k :| 0 <= k < |log| && NamesDomain(log[k], normalized) {
      ListedAreLogged(s, log, log[k].entry.name);
    }
  }

  // ---------- order and batches ----------

  lemma RunCovers(max: nat, ops: seq<Op>, v: int)
    requires SealedRun(max, ops) && Adds(ops) <= max
    ensures Normal(Run(max, ops).index.ranges)
    ensures Covers(Run(max, ops).index.ranges, v) <==>
            exists i, e :: Add(i) in ops && EntryOf(i) == Some(e) && InBlock(Logged(i, e), v)
  {
    var log := Run(max, ops).log;
    SealedRanges(max, ops);
    SealedIsNormal(Blocks(log));
    BlocksCover(log, v);
    if k :| 0 <= k < |log| && InBlock(log[k], v) {
      NothingRefused(max, ops, log[k].indicator, log[k].entry);
      assert InLog(log, log[k].indicator, log[k].entry);
    }
    if i, e :| Add(i) in ops && EntryOf(i) == Some(e) && InBlock(Logged(i, e), v) {
      NothingRefused(max, ops, i, e);
    }
  }

  /** Below capacity the sealed ranges depend only on which indicators were added: not on
      their order, not on repeats, and not on where the seals fell. */
  lemma SealedRangesAreDetermined(m1: nat, ops1: seq<Op>, m2: nat, ops2: seq<Op>)
    requires SealedRun(m1, ops1) && Adds(ops1) <= m1
    requires SealedRun(m2, ops2) && Adds(ops2) <= m2
    requires forall i :: Add(i) in ops1 <==> Add(i) in ops2
    ensures SameSpans(Run(m1, ops1).index.ranges, Run(m2, ops2).index.ranges)
  {
    var r1, r2 := Run(m1, ops1).index.ranges, Run(m2, ops2).index.ranges;
    forall v ensures Covers(r1, v) <==> Covers(r2, v) {
      RunCovers(m1, ops1, v);
      RunCovers(m2, ops2, v);
    }
    RunCovers(m1, ops1, 0);
    RunCovers(m2, ops2, 0);
    NormalIsUnique(r1, r2);
  }

  // ---------- routability ----------

  /** A block accepted with a prefix of /15 or longer holds no reserved address. */
  lemma AcceptedBlockIsRoutable(i: Indicator) returns (bits: nat)
    requires i.kind == Block && EntryOf(i).Some?
    ensures bits <= 32 && |Split(Trim(i.value), "/")| >= 2 && bits == Parse(10, Split(Trim(i.value), "/")[1])
    ensures EndsSuffice(bits) <==> bits <= 1 || bits >= 15
    ensures EndsSuffice(bits) ==> AllRoutable(EntryOf(i).value.start, EntryOf(i).value.end)
  {
    var base: nat;
    base, bits := ParsedBlock(i.value);
    EndsSufficeExactly(bits);
    SoundBlock(base, bits, EntryOf(i).value.start, EntryOf(i).value.end);
  }

  lemma SoundBlock(base: nat, bits: nat, start: nat, end: nat)
    requires bits <= 32 && base < WORD
    requires start == BlockStart(base, BlockSize(32, bits)) && end == start + BlockSize(32, bits) - 1
    requires EndsRoutable(start, end)
    ensures EndsSuffice(bits) ==> AllRoutable(start, end)
  {
  }

  lemma MaskedTop(a: nat, k: nat, p: nat, base: nat)
    requires a < 0x1_0000 && k <= 16 && p == Pow(2, k) && 1 <= p && base % p == 0
    ensures p <= 0x1_0000
    ensures And(a, 0x1_0000 - p) == base <==> base <= a < base + p
  {
    Powers();
    PowMonotone(2, k, 16);
    AndHighOnes(a, 16, k);
    InBlockOf(a, p, base);
  }

  lemma InBlockOf(a: nat, p: nat, base: nat)
    requires p >= 1 && base % p == 0
    ensures a - a % p == base <==> base <= a < base + p
  {
    DivModSplit(p, a);
    DivModSplit(p, base);
    if base <= a < base + p {
      DivModUnique(base / p, p, a - base);
    }
  }

  /** The masks on the leading group: link-local, unique local, multicast. */
  lemma ReservedGroups(first: nat)
    requires first < 0x1_0000
    ensures And(first, 0xffc0) == 0xfe80 <==> 0xfe80 <= first <= 0xfebf
    ensures And(first, 0xfe00) == 0xfc00 <==> 0xfc00 <= first <= 0xfdff
    ensures And(first, 0xff00) == 0xff00 <==> 0xff00 <= first
  {
    SmallPowers();
    MaskedTop(first, 6, 64, 0xfe80);
    MaskedTop(first, 9, 512, 0xfc00);
    MaskedTop(first, 8, 256, 0xff00);
  }

  lemma SmallPowers()
    ensures Pow(2, 6) == 64 && Pow(2, 8) == 256 && Pow(2, 9) == 512
  {
    assert Pow(2, 3) == 8;
    PowAdd(2, 3, 3);
    PowAdd(2, 6, 2);
    PowAdd(2, 6, 3);
  }

  lemma JoinZero(tail: seq<string>, text: string)
    requires |tail| >= 1 && Join(tail, ":") == text
    ensures Join(["0"] + tail, ":") == "0:" + text
  {
    assert (["0"] + tail)[1..] == tail;
  }

  /** The unspecified and the loopback address as they are spelled in the test. */
  lemma ShortText(last: nat)
    requires last <= 1
    ensures Join(["0", "0", "0", "0", "0", "0", "0", Hex(last)], ":") == "0:0:0:0:0:0:0:" + Hex(last)
  {
    var h := Hex(last);
    JoinZero([h], h);
    JoinZero(["0", h], "0:" + h);
    JoinZero(["0", "0", h], "0:0:" + h);
    JoinZero(["0", "0", "0", h], "0:0:0:" + h);
    JoinZero(["0", "0", "0", "0", h], "0:0:0:0:" + h);
    JoinZero(["0", "0", "0", "0", "0", h], "0:0:0:0:0:" + h);
    JoinZero(["0", "0", "0", "0", "0", "0", h], "0:0:0:0:0:0:" + h);
  }

  lemma ShortAddress(groups: seq<nat>, last: nat)
    requires IsAddress(groups) && last <= 1
    ensures CanonicalText(groups) == "0:0:0:0:0:0:0:" + Hex(last) <==> Value(0x1_0000, groups) == last
  {
    var short := [0, 0, 0, 0, 0, 0, 0, last];
    assert Hex(0) == "0";
    assert HexGroups(short) == ["0", "0", "0", "0", "0", "0", "0", Hex(last)];
    ShortText(last);
    ValueOfCanonical(groups);
    ValueOfCanonical(short);
    LeadingZeros(0x1_0000, 7, [last]);
    assert short == seq(7, _ => 0) + [last];
    assert Value(0x1_0000, [last]) == last by { ValueSnoc(0x1_0000, [], 0, last); }
    if Value(0x1_0000, groups) == last {
      ValueInjective(0x1_0000, groups, short);
    }
  }

  lemma FirstGroupOf(groups: seq<nat>)
    requires IsAddress(groups)
    ensures FirstGroup(CanonicalText(groups)) == Some(groups[0])
  {
    var hex := HexGroups(groups);
    HexGroupsAreHex(groups);
    forall i | 0 <= i < 8 ensures ':' !in hex[i] {
      assert HexGroup(hex[i]);
    }
    SplitJoin(hex, ':');
    assert HexGroup(hex[0]);
    ParsePrint(16, groups[0]);
  }

  /** The refused IPv6 addresses, by value: `::`, `::1`, fe80::/10, fc00::/7 and ff00::/8. */
  lemma NonRoutableV6Exactly(groups: seq<nat>)
    requires IsAddress(groups)
    ensures IsNonRoutableV6(CanonicalText(groups)) <==>
            Value(0x1_0000, groups) <= 1 || 0xfe80 <= groups[0] <= 0xfebf ||
            0xfc00 <= groups[0] <= 0xfdff || 0xff00 <= groups[0]
  {
    assert Hex(0) == "0" && Hex(1) == "1";
    ShortAddress(groups, 0);
    ShortAddress(groups, 1);
    FirstGroupOf(groups);
    ReservedGroups(groups[0]);
  }
}
