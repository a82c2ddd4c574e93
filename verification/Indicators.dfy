/**
 The indicator index: loading it under a capacity, sealing it, and looking addresses and
 names up in it.
 */
module Indicators {
  import opened Options
  import opened Text
  import opened Addresses
  import opened AddressText
  import opened Cidr
  import opened Sorting
  import opened Ranges
  import opened Domains

  const DEFAULT_MAX_INDICATORS: nat := 500_000

  datatype Kind = V4 | V6 | Block | Name

  datatype Indicator = Indicator(value: string, kind: Kind, source: string, note: Option<string>)

  datatype Meta = Meta(source: string, note: Option<string>)

  /** What matched, and on whose word. */
  datatype Match = Match(observed: string, indicator: string, kind: Kind, meta: Meta)

  // ---------- what an entry denotes ----------

  datatype Entry = Host4(v4: nat) | Host6(v6: string) | Addresses(start: nat, end: nat) | Domain(name: string)

  function CleanNote(note: Option<string>): Option<string>
  {
    match note
    case None => None
    case Some(text) => if Trim(text) == "" then None else Some(Trim(text))
  }

  function MetaOf(i: Indicator): Meta { Meta(i.source, CleanNote(i.note)) }

  /** The leading group of a canonical address. */
  function FirstGroup(canonical: string): Option<nat>
  {
    var first := Split(canonical, ":")[0];
    if first != "" && AllDigits(16, first) then Some(Parse(16, first)) else None
  }

  predicate IsNonRoutableV6(canonical: string)
  {
    canonical == "0:0:0:0:0:0:0:0" || canonical == "0:0:0:0:0:0:0:1" ||
    match FirstGroup(canonical)
    case None => false
    case Some(first) =>
      And(first, 0xffc0) == 0xfe80 || And(first, 0xfe00) == 0xfc00 || And(first, 0xff00) == 0xff00
  }

  /** What an indicator means, or None when it is malformed or names reserved space. */
  function EntryOf(i: Indicator): Option<Entry>
  {
    match i.kind
    case V4 =>
      (match Ipv4ToInt(i.value)
       case None => None
       case Some(v) => if IsNonRoutableV4(v) then None else Some(Host4(v)))
    case Block =>
      (match ParseCidr(i.value)
       case None => None
       case Some(range) =>
         if IsNonRoutableV4(range.0) || IsNonRoutableV4(range.1) then None
         else Some(Addresses(range.0, range.1)))
    case V6 =>
      (match CanonicalIpv6(i.value)
       case None => None
       case Some(v) => if IsNonRoutableV6(v) then None else Some(Host6(v)))
    case Name =>
      (match NormalizeDomain(i.value)
       case None => None
       case Some(d) => Some(Domain(d)))
  }

  // ---------- the index ----------

  datatype Index = Index(
    ipv4: map<nat, Meta>,
    ipv6: map<string, Meta>,
    domains: map<string, Meta>,
    ranges: seq<Range>,
    pending: seq<Range>,
    rejected: nat,
    bySource: map<string, nat>
  )

  const EMPTY_INDEX: Index := Index(map[], map[], map[], [], [], 0, map[])

  function Get<K, V>(m: map<K, V>, k: K): Option<V> { if k in m then Some(m[k]) else None }

  function Tally(m: map<string, nat>, k: string): nat { if k in m then m[k] else 0 }

  function Size(s: Index): nat { |s.ipv4| + |s.ipv6| + |s.domains| + |s.ranges| }

  predicate Full(s: Index, max: nat) { Size(s) + |s.pending| >= max }

  function RangeOf(i: Indicator, start: nat, end: nat): Range
  {
    Range(start, end, Tag(i.source, CleanNote(i.note), i.value))
  }

  function Record(s: Index, i: Indicator, e: Entry): Index
  {
    match e
    case Host4(v) => s.(ipv4 := s.ipv4[v := MetaOf(i)])
    case Host6(v) => s.(ipv6 := s.ipv6[v := MetaOf(i)])
    case Addresses(start, end) => s.(pending := s.pending + [RangeOf(i, start, end)])
    case Domain(d) => s.(domains := s.domains[d := MetaOf(i)])
  }

  function Count(s: Index, source: string): Index
  {
    s.(bySource := s.bySource[source := Tally(s.bySource, source) + 1])
  }

  predicate Accepts(s: Index, max: nat, i: Indicator) { !Full(s, max) && EntryOf(i).Some? }

  function Added(s: Index, max: nat, i: Indicator): Index
  {
    if Accepts(s, max, i) then Count(Record(s, i, EntryOf(i).value), i.source)
    else s.(rejected := s.rejected + 1)
  }

  function AfterSeal(s: Index): Index
  {
    if s.pending == [] then s else s.(ranges := Sealed(s.ranges + s.pending), pending := [])
  }

  function LookupV4(s: Index, address: string, v: nat): Option<Match>
  {
    if v in s.ipv4 then Some(Match(address, address, V4, s.ipv4[v]))
    else match Scan(s.ranges, v)
         case None => None
         case Some(r) => Some(Match(address, r.tag.prefix, Block, Meta(r.tag.source, r.tag.note)))
  }

  function LookupIp(s: Index, address: string): Option<Match>
  {
    if ':' in address then
      match CanonicalIpv6(address)
      case None => None
      case Some(canonical) =>
        if canonical in s.ipv6 then Some(Match(address, canonical, V6, s.ipv6[canonical])) else None
    else
      match Ipv4ToInt(address)
      case None => None
      case Some(v) => LookupV4(s, address, v)
  }

  function LookupDomain(s: Index, name: string): Option<Match>
  {
    match NormalizeDomain(name)
    case None => None
    case Some(normalized) =>
      match Walk(Split(normalized, "."), 0, s.domains)
      case None => None
      case Some(d) => if d in s.domains then Some(Match(normalized, d, Name, s.domains[d])) else None
  }

  /** The index as the source holds it: every method updates these fields in place. */
  class IndicatorSet {
    var ipv4: map<nat, Meta>
    var ipv6: map<string, Meta>
    var domains: map<string, Meta>
    var ranges: seq<Range>
    var pendingRanges: seq<Range>
    var rejected: nat
    var bySource: map<string, nat>
    const maxIndicators: nat

    constructor (maxIndicators: nat := DEFAULT_MAX_INDICATORS)
      ensures State() == EMPTY_INDEX && this.maxIndicators == maxIndicators
    {
      this.maxIndicators := maxIndicators;
      ipv4, ipv6, domains, ranges, pendingRanges, rejected, bySource := map[], map[], map[], [], [], 0, map[];
    }

    function State(): Index
      reads this
    {
      Index(ipv4, ipv6, domains, ranges, pendingRanges, rejected, bySource)
    }

    method Add(i: Indicator) returns (accepted: bool)
      modifies this
      ensures State() == Added(old(State()), maxIndicators, i)
      ensures accepted == Accepts(old(State()), maxIndicators, i)
    {
      if |ipv4| + |ipv6| + |domains| + |ranges| + |pendingRanges| >= maxIndicators {
        rejected := rejected + 1;
        return false;
      }
      accepted := AddEntry(i);
      if accepted {
        CountSource(i.source);
      } else {
        rejected := rejected + 1;
      }
    }

    method AddEntry(i: Indicator) returns (accepted: bool)
      modifies this
      ensures accepted == EntryOf(i).Some?
      ensures State() == if accepted then Record(old(State()), i, EntryOf(i).value) else old(State())
    {
      match i.kind {
        case V4 => accepted := AddV4(i);
        case Block => accepted := AddBlock(i);
        case V6 => accepted := AddV6(i);
        case Name => accepted := AddName(i);
      }
    }

    method AddV4(i: Indicator) returns (accepted: bool)
      requires i.kind == V4
      modifies this
      ensures accepted == EntryOf(i).Some?
      ensures State() == if accepted then Record(old(State()), i, EntryOf(i).value) else old(State())
    {
      var value := ReadDottedQuad(i.value);
      accepted := value.Some? && !IsNonRoutableV4(value.value);
      if accepted {
        ipv4 := ipv4[value.value := MetaOf(i)];
      }
    }

    method AddBlock(i: Indicator) returns (accepted: bool)
      requires i.kind == Block
      modifies this
      ensures accepted == EntryOf(i).Some?
      ensures State() == if accepted then Record(old(State()), i, EntryOf(i).value) else old(State())
    {
      var value := ParseCidr(i.value);
      accepted := value.Some? && !IsNonRoutableV4(value.value.0) && !IsNonRoutableV4(value.value.1);
      if accepted {
        pendingRanges := pendingRanges + [RangeOf(i, value.value.0, value.value.1)];
      }
    }

    method AddV6(i: Indicator) returns (accepted: bool)
      requires i.kind == V6
      modifies this
      ensures accepted == EntryOf(i).Some?
      ensures State() == if accepted then Record(old(State()), i, EntryOf(i).value) else old(State())
    {
      var value := Canonicalize(i.value);
      accepted := value.Some? && !IsNonRoutableV6(value.value);
      if accepted {
        ipv6 := ipv6[value.value := MetaOf(i)];
      }
    }

    method AddName(i: Indicator) returns (accepted: bool)
      requires i.kind == Name
      modifies this
      ensures accepted == EntryOf(i).Some?
      ensures State() == if accepted then Record(old(State()), i, EntryOf(i).value) else old(State())
    {
      var value := NormalizeDomain(i.value);
      accepted := value.Some?;
      if accepted {
        domains := domains[value.value := MetaOf(i)];
      }
    }

    method CountSource(source: string)
      modifies this`bySource
      ensures bySource == old(bySource)[source := Tally(old(bySource), source) + 1]
    {
      bySource := bySource[source := (if source in bySource then bySource[source] else 0) + 1];
    }

    method Seal()
      modifies this`ranges, this`pendingRanges
      ensures State() == AfterSeal(old(State()))
    {
      if |pendingRanges| == 0 { return; }
      var merged := MergeSorted(Sort(ranges + pendingRanges, ByStart()));
      ranges, pendingRanges := merged, [];
    }

    method MatchIp(address: string) returns (r: Option<Match>)
      requires Normal(ranges)
      ensures r == LookupIp(State(), address)
    {
      if ':' in address {
        var canonical := Canonicalize(address);
        if canonical.None? || canonical.value !in ipv6 { return None; }
        return Some(Match(address, canonical.value, V6, ipv6[canonical.value]));
      }
      var value := ReadDottedQuad(address);
      if value.None? { return None; }
      if value.value in ipv4 { return Some(Match(address, address, V4, ipv4[value.value])); }
      var range := FindRange(ranges, value.value);
      if range.None? { return None; }
      var tag := range.value.tag;
      return Some(Match(address, tag.prefix, Block, Meta(tag.source, tag.note)));
    }

    method MatchDomain(name: string) returns (r: Option<Match>)
      ensures r == LookupDomain(State(), name)
    {
      var normalized := NormalizeDomain(name);
      if normalized.None? { return None; }
      var found := FindParent(normalized.value, domains);
      if found.None? || found.value !in domains { return None; }
      return Some(Match(normalized.value, found.value, Name, domains[found.value]));
    }
  }
}
