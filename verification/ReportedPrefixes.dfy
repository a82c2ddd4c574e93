/**
 What a block hit reports. A merged range keeps the prefix of the first entry that starts where
 it starts, so the prefix reported for an address need not contain it; here is exactly when it does.
 */
module ReportedPrefixes {
  import opened Options
  import opened Radix
  import opened Text
  import opened AddressText
  import opened Cidr
  import opened Prefixes
  import opened Ranges
  import opened Indicators
  import opened IndicatorRuns

  /** The prefix reported for an address that a block answers for; a host listed by itself comes first. */
  function ReportedPrefix(s: Index, v: nat): Option<string>
  {
    if v in s.ipv4 then None
    else match Scan(s.ranges, v)
         case None => None
         case Some(r) => Some(r.tag.prefix)
  }

  lemma LookupReports(s: Index, address: string, v: nat)
    requires ':' !in address && Ipv4ToInt(address) == Some(v)
    ensures var m := LookupIp(s, address);
            match ReportedPrefix(s, v)
            case Some(prefix) => m.Some? && m.value.kind == Block && m.value.indicator == prefix
            case None => !(m.Some? && m.value.kind == Block)
  {
  }

  /** The prefix, read again, is a block that holds the address. */
  predicate Holds(prefix: string, v: nat)
  {
    match ParseCidr(prefix)
    case None => false
    case Some(range) => range.0 <= v <= range.1
  }

  /** Accepted blocks cover all of `s..e` and neither neighbour. */
  ghost predicate Stretch(log: seq<Logged>, s: nat, e: nat)
  {
    s <= e && (forall u :: s <= u <= e ==> Covers(Blocks(log), u)) &&
    !Covers(Blocks(log), s - 1) && !Covers(Blocks(log), e + 1)
  }

  /** The first accepted block that starts at `s`. */
  function FirstBlock(log: seq<Logged>, s: int): Option<Logged>
  {
    if log == [] then None
    else if FirstBlock(log[..|log| - 1], s).Some? then FirstBlock(log[..|log| - 1], s)
    else
      var last := log[|log| - 1];
      if last.entry.Addresses? && last.entry.start == s then Some(last) else None
  }

  function TagOf(l: Logged): Tag { Tag(l.indicator.source, CleanNote(l.indicator.note), l.indicator.value) }

  lemma {:induction false} FirstBlockTag(log: seq<Logged>, s: int)
    ensures match FirstBlock(log, s)
            case None => FirstAt(Blocks(log), s) == None
            case Some(l) => FirstAt(Blocks(log), s) == Some(TagOf(l)) && l.entry.Addresses? && l.entry.start == s &&
                            exists k :: 0 <= k < |log| && log[k] == l
  {
    if log != [] {
      var init, last := log[..|log| - 1], log[|log| - 1];
      FirstBlockTag(init, s);
      FirstAtConcat(Blocks(init), BlockOf(last), s);
      OneBlockTag(last, s);
      if FirstBlock(init, s).Some? {
        var k :| 0 <= k < |init| && init[k] == FirstBlock(init, s).value;
        assert log[k] == FirstBlock(log, s).value;
      }
    }
  }

  lemma OneBlockTag(l: Logged, s: int)
    ensures FirstAt(BlockOf(l), s) == if l.entry.Addresses? && l.entry.start == s then Some(TagOf(l)) else None
  {
    if l.entry.Addresses? {
      assert BlockOf(l)[1..] == [];
      assert FirstAt([], s) == None;
    }
  }

  /** The log records what each accepted indicator denotes. */
  lemma {:induction false} LogIsParsed(max: nat, ops: seq<Op>, k: nat)
    requires k < |Run(max, ops).log|
    ensures EntryOf(Run(max, ops).log[k].indicator) == Some(Run(max, ops).log[k].entry)
  {
    if ops != [] {
      var init, op := ops[..|ops| - 1], ops[|ops| - 1];
      if k < |Run(max, init).log| {
        LogIsParsed(max, init, k);
      }
    }
  }

  /** The block an accepted indicator denotes is what its text parses to. */
  lemma BlockIsParsed(i: Indicator)
    requires EntryOf(i).Some? && EntryOf(i).value.Addresses?
    ensures ParseCidr(i.value) == Some((EntryOf(i).value.start, EntryOf(i).value.end))
  {
  }

  /** The entry that gives a stretch its attribution starts it and does not outrun it. */
  lemma FirstOfStretch(max: nat, ops: seq<Op>, s: nat, e: nat) returns (first: Logged)
    requires SealedRun(max, ops) && Stretch(Run(max, ops).log, s, e)
    ensures var log := Run(max, ops).log;
            FirstBlock(log, s) == Some(first) && FirstAt(Blocks(log), s) == Some(TagOf(first)) &&
            first.entry.Addresses? && first.entry.start == s <= first.entry.end <= e &&
            ParseCidr(first.indicator.value) == Some((first.entry.start, first.entry.end))
  {
    var log := Run(max, ops).log;
    SealedRanges(max, ops);
    CoveredStart(Blocks(log), s, s, e);
    FirstBlockTag(log, s);
    first := FirstBlock(log, s).value;
    var k :| 0 <= k < |log| && log[k] == first;
    LogIsParsed(max, ops, k);
    BlockIsParsed(first.indicator);
    RunsAreConsistent(max, ops);
    assert WellFormedEntry(log[k].entry);
    BlocksCover(log, e + 1);
    assert !InBlock(log[k], e + 1);
  }

  ghost predicate CoversDownTo(blocks: seq<Range>, s: int, v: int)
  {
    s <= v && !Covers(blocks, s - 1) && forall u :: s <= u <= v ==> Covers(blocks, u)
  }

  lemma OneStart(blocks: seq<Range>, s: int, t: int, v: int)
    requires CoversDownTo(blocks, s, v) && CoversDownTo(blocks, t, v)
    ensures s == t
  {
    assert s < t ==> Covers(blocks, t - 1);
    assert t < s ==> Covers(blocks, s - 1);
  }

  /** Wherever in a stretch the address lies, its attribution is that of the stretch. */
  lemma CoveredStart(blocks: seq<Range>, s: int, v: int, e: int)
    requires NonEmpty(blocks) && s <= v <= e && !Covers(blocks, s - 1)
    requires forall u :: s <= u <= e ==> Covers(blocks, u)
    ensures Scan(Sealed(blocks), v).Some?
    ensures FirstAt(blocks, s) == Some(Scan(Sealed(blocks), v).value.tag)
  {
    SealedIsNormal(blocks);
    ScanCovers(Sealed(blocks), v);
    var start := ScanAttribution(blocks, v);
    OneStart(blocks, s, start, v);
  }

  /** For every address of a covered stretch, after a seal: either the address is listed by itself,
      or the prefix reported is that of the first accepted block that starts where the stretch
      starts, and that prefix holds the address if and only if the address is not past its end. */
  lemma ReportedPrefixHoldsExactly(max: nat, ops: seq<Op>, s: nat, e: nat, v: nat) returns (first: Logged)
    requires SealedRun(max, ops) && Stretch(Run(max, ops).log, s, e) && s <= v <= e
    ensures FirstBlock(Run(max, ops).log, s) == Some(first) && first.entry.Addresses?
    ensures first.entry.start == s && first.entry.end <= e
    ensures match ReportedPrefix(Run(max, ops).index, v)
            case None => Newest(Run(max, ops).log, Host4(v)).Some?
            case Some(prefix) =>
              Newest(Run(max, ops).log, Host4(v)).None? && prefix == first.indicator.value &&
              (Holds(prefix, v) <==> v <= first.entry.end)
  {
    var l := Run(max, ops);
    RunsAreConsistent(max, ops);
    SealedRanges(max, ops);
    first := FirstOfStretch(max, ops, s, e);
    CoveredStart(Blocks(l.log), s, v, e);
    assert Get(l.index.ipv4, v) == Newest(l.log, Host4(v));
  }

  predicate HoldsIfReported(prefix: Option<string>, v: nat)
  {
    match prefix
    case None => true
    case Some(text) => Holds(text, v)
  }

  /** Every block hit in the stretch reports a prefix that holds the address. */
  ghost predicate AllHold(s: Index, start: nat, end: nat)
  {
    forall v: nat :: start <= v <= end ==> HoldsIfReported(ReportedPrefix(s, v), v)
  }

  /** What holds of one address, for all of them. */
  ghost predicate EachReports(s: Index, log: seq<Logged>, start: nat, end: nat, reach: int)
  {
    forall v: nat :: start <= v <= end ==>
      (ReportedPrefix(s, v).None? <==> Newest(log, Host4(v)).Some?) &&
      (ReportedPrefix(s, v).Some? ==> (Holds(ReportedPrefix(s, v).value, v) <==> v <= reach))
  }

  ghost predicate OnlyHostsBeyond(log: seq<Logged>, reach: int, end: nat)
  {
    forall v: nat :: reach < v <= end ==> Newest(log, Host4(v)).Some?
  }

  lemma HoldExactly(s: Index, log: seq<Logged>, start: nat, end: nat, reach: int)
    requires EachReports(s, log, start, end, reach) && start <= reach
    ensures AllHold(s, start, end) <==> OnlyHostsBeyond(log, reach, end)
  {
    if AllHold(s, start, end) {
      forall v: nat | reach < v <= end ensures Newest(log, Host4(v)).Some? {
        assert HoldsIfReported(ReportedPrefix(s, v), v);
      }
    }
    if OnlyHostsBeyond(log, reach, end) {
      forall v: nat | start <= v <= end ensures HoldsIfReported(ReportedPrefix(s, v), v) {
        assert reach < v ==> Newest(log, Host4(v)).Some?;
      }
    }
  }

  /** So over a whole stretch every prefix reported holds its address if and only if the first
      accepted block that starts there reaches the end of the stretch, or all addresses behind it
      are listed by themselves. */
  lemma StretchReportsExactly(max: nat, ops: seq<Op>, s: nat, e: nat) returns (first: Logged)
    requires SealedRun(max, ops) && Stretch(Run(max, ops).log, s, e)
    ensures FirstBlock(Run(max, ops).log, s) == Some(first) && first.entry.Addresses? && first.entry.end <= e
    ensures AllHold(Run(max, ops).index, s, e) <==> OnlyHostsBeyond(Run(max, ops).log, first.entry.end, e)
    ensures Newest(Run(max, ops).log, Host4(e)).None? ==>
              (AllHold(Run(max, ops).index, s, e) <==> first.entry.end == e)
  {
    var index, log := Run(max, ops).index, Run(max, ops).log;
    first := FirstOfStretch(max, ops, s, e);
    forall v: nat | s <= v <= e
      ensures ReportedPrefix(index, v).None? <==> Newest(log, Host4(v)).Some?
      ensures ReportedPrefix(index, v).Some? ==>
                (Holds(ReportedPrefix(index, v).value, v) <==> v <= first.entry.end)
    {
      var f := ReportedPrefixHoldsExactly(max, ops, s, e, v);
    }
    HoldExactly(index, log, s, e, first.entry.end);
  }

  // ---------- a run that misreports ----------

  function TwoBlocks(a: Indicator, b: Indicator): seq<Op> { [Add(a)] + [Add(b)] + [Seal] }

  lemma AddIsLogged(max: nat, l: Loaded, i: Indicator, e: Option<Entry>)
    requires !Full(l.index, max) && e.Some? && e == EntryOf(i)
    ensures Step(max, l, Add(i)) ==
            Loaded(Count(Record(l.index, i, e.value), i.source), l.log + [Logged(i, e.value)])
  {
  }

  lemma RunSnoc(max: nat, ops: seq<Op>, op: Op)
    ensures Run(max, ops + [op]) == Step(max, Run(max, ops), op)
  {
    assert (ops + [op])[..|ops|] == ops;
  }

  lemma RunOne(max: nat, op: Op)
    ensures Run(max, [op]) == Step(max, Loaded(EMPTY_INDEX, []), op)
  {
    assert [op][..0] == [];
  }

  lemma TwoBlocksLogged(max: nat, a: Indicator, b: Indicator, ea: Entry, eb: Entry)
    requires max >= 2 && EntryOf(a) == Some(ea) && EntryOf(b) == Some(eb)
    ensures SealedRun(max, TwoBlocks(a, b))
    ensures Run(max, TwoBlocks(a, b)).log == [Logged(a, ea), Logged(b, eb)]
  {
    var start := Loaded(EMPTY_INDEX, []);
    RunOne(max, Add(a));
    AddIsLogged(max, start, a, Some(ea));
    RecordGrowsByOne(EMPTY_INDEX, a, ea);
    RunSnoc(max, [Add(a)], Add(b));
    AddIsLogged(max, Run(max, [Add(a)]), b, Some(eb));
    RunSnoc(max, [Add(a)] + [Add(b)], Seal);
  }

  lemma TwoBlocksStretch(la: Logged, lb: Logged, s: nat, m: nat, e: nat)
    requires la.entry == Addresses(s, m) && lb.entry == Addresses(m + 1, e) && s <= m < e
    ensures Stretch([la, lb], s, e) && FirstBlock([la, lb], s) == Some(la)
  {
    var log := [la, lb];
    assert log[..1] == [la] && log[..1][..0] == [];
    assert FirstBlock([la], s) == Some(la);
    forall u ensures Covers(Blocks(log), u) <==> s <= u <= e {
      BlocksCover(log, u);
      assert InBlock(log[0], u) <==> s <= u <= m;
      assert InBlock(log[1], u) <==> m < u <= e;
    }
  }

  /** Two adjacent accepted blocks, added in order: every address of the second is reported with the
      prefix of the first, which does not hold it. */
  lemma AdjacentBlocksMisreport(max: nat, a: Indicator, b: Indicator, s: nat, m: nat, e: nat, v: nat)
    requires max >= 2 && s <= m < v <= e
    requires EntryOf(a) == Some(Addresses(s, m)) && EntryOf(b) == Some(Addresses(m + 1, e))
    ensures SealedRun(max, TwoBlocks(a, b))
    ensures ReportedPrefix(Run(max, TwoBlocks(a, b)).index, v) == Some(a.value) && !Holds(a.value, v)
  {
    var la, lb := Logged(a, Addresses(s, m)), Logged(b, Addresses(m + 1, e));
    TwoBlocksLogged(max, a, b, la.entry, lb.entry);
    TwoBlocksStretch(la, lb, s, m, e);
    var first := ReportedPrefixHoldsExactly(max, TwoBlocks(a, b), s, e, v);
    NewestIsLogged([la, lb], Host4(v));
    BlockIsParsed(a);
  }

  lemma AlignedStart(base: nat, size: nat)
    requires size >= 1 && base % size == 0
    ensures BlockStart(base, size) == base
  {
    DivModSplit(size, base);
  }

  lemma BlockDenotes(i: Indicator, start: nat, end: nat)
    requires i.kind == Block && ParseCidr(i.value) == Some((start, end))
    ensures EntryOf(i) == if EndsRoutable(start, end) then Some(Addresses(start, end)) else None
  {
  }

  /** Two adjacent blocks, in the feeds' own terms: whatever their texts are and however the address
      is spelled, a lookup of an address of the second reports the first. */
  lemma NeighboursMisreport(max: nat, a: Indicator, b: Indicator, s: nat, m: nat, e: nat, address: string, v: nat)
    requires max >= 2 && s <= m < v <= e && ':' !in address && Ipv4ToInt(address) == Some(v)
    requires a.kind == Block && ParseCidr(a.value) == Some((s, m)) && EndsRoutable(s, m)
    requires b.kind == Block && ParseCidr(b.value) == Some((m + 1, e)) && EndsRoutable(m + 1, e)
    ensures SealedRun(max, TwoBlocks(a, b)) && !Holds(a.value, v)
    ensures var r := LookupIp(Run(max, TwoBlocks(a, b)).index, address);
            r.Some? && r.value.kind == Block && r.value.indicator == a.value
  {
    BlockDenotes(a, s, m);
    BlockDenotes(b, m + 1, e);
    AdjacentBlocksMisreport(max, a, b, s, m, e, v);
    LookupReports(Run(max, TwoBlocks(a, b)).index, address, v);
  }

  lemma SpelledAddress(v: nat) returns (address: string)
    requires v < WORD
    ensures IsAddressText(Family.V4, address, v)
  {
    address := IntToIpv4(v);
    PrintedV4(v);
  }

  lemma ListedBlock(base: nat, bits: nat, size: nat) returns (i: Indicator)
    requires base < WORD && bits <= 32 && size == BlockSize(32, bits) && base % size == 0
    ensures i.kind == Block && ParseCidr(i.value) == Some((base, base + size - 1))
  {
    var address := SpelledAddress(base);
    CidrOfParts(address, bits);
    AlignedStart(base, size);
    i := Indicator(address + "/" + Dec(bits), Block, "feed", None);
  }

  lemma EightsAreRoutable()
    ensures EndsRoutable(0x0808_0800, 0x0808_087f) && EndsRoutable(0x0808_0880, 0x0808_08ff)
    ensures BlockSize(32, 25) == 128
  {
  }

  /** For one: 8.8.8.0/25 and 8.8.8.128/25 are added and sealed, and 8.8.8.200 is looked up. */
  lemma MisreportedAddress(max: nat) returns (a: Indicator, b: Indicator, address: string)
    requires max >= 2
    ensures ParseCidr(a.value) == Some((0x0808_0800, 0x0808_087f)) && Ipv4ToInt(address) == Some(0x0808_08c8)
    ensures SealedRun(max, TwoBlocks(a, b))
    ensures var m := LookupIp(Run(max, TwoBlocks(a, b)).index, address);
            m.Some? && m.value.kind == Block && m.value.indicator == a.value && !Holds(a.value, 0x0808_08c8)
  {
    EightsAreRoutable();
    a := ListedBlock(0x0808_0800, 25, 128);
    b := ListedBlock(0x0808_0880, 25, 128);
    address := SpelledAddress(0x0808_08c8);
    NeighboursMisreport(max, a, b, 0x0808_0800, 0x0808_087f, 0x0808_08ff, address, 0x0808_08c8);
  }
}
