/** What the index accepts, kind by kind and by value, and so what can ever stand in it. */
module Acceptance {
  import opened Options
  import opened Radix
  import opened Text
  import opened Addresses
  import opened AddressText
  import opened Cidr
  import opened Domains
  import opened Ranges
  import opened Indicators
  import opened IndicatorRuns
  import opened ReportedPrefixes

  /** The IPv6 space no indicator may name: `::`, `::1`, fe80::/10, fc00::/7 and ff00::/8. */
  ghost predicate ReservedV6(groups: seq<nat>)
    requires IsAddress(groups)
  {
    Value(0x1_0000, groups) <= 1 || 0xfe80 <= groups[0] <= 0xfebf || 0xfc00 <= groups[0] <= 0xfdff ||
    0xff00 <= groups[0]
  }

  /** A host is accepted if and only if its text is an address and the address is not reserved. */
  lemma HostAccepted(i: Indicator)
    requires i.kind == V4
    ensures EntryOf(i) ==
            match Ipv4ToInt(i.value)
            case None => None
            case Some(v) => if Reserved(v) then None else Some(Host4(v))
  {
    if Ipv4ToInt(i.value).Some? {
      Ipv4Bound(i.value);
      NonRoutableV4Exactly(Ipv4ToInt(i.value).value);
    }
  }

  /** A block is accepted if and only if it parses and neither of its ends is reserved. */
  lemma BlockAccepted(i: Indicator)
    requires i.kind == Block
    ensures EntryOf(i) ==
            match ParseCidr(i.value)
            case None => None
            case Some(r) => if Reserved(r.0) || Reserved(r.1) then None else Some(Addresses(r.0, r.1))
  {
    if ParseCidr(i.value).Some? {
      var base, bits := ParsedBlock(i.value);
      BlockFits(base, bits);
      NonRoutableV4Exactly(ParseCidr(i.value).value.0);
      NonRoutableV4Exactly(ParseCidr(i.value).value.1);
    }
  }

  /** An IPv6 host is accepted if and only if its text is an address, not reserved; it is kept by its groups. */
  lemma HostV6Accepted(i: Indicator, groups: seq<nat>)
    requires i.kind == V6 && IsAddress(groups) && CanonicalIpv6(i.value) == Some(CanonicalText(groups))
    ensures EntryOf(i) == if ReservedV6(groups) then None else Some(Host6(CanonicalText(groups)))
  {
    NonRoutableV6Exactly(groups);
  }

  /** A name is accepted if and only if it is a host name; text that is no address of its kind never is. */
  lemma OthersAccepted(i: Indicator)
    ensures i.kind == Name ==>
              EntryOf(i) ==
              if NormalizeDomain(i.value).Some? then Some(Domain(NormalizeDomain(i.value).value)) else None
    ensures i.kind == V6 && CanonicalIpv6(i.value).None? ==> EntryOf(i) == None
  {
  }

  /** In words of the entry alone. */
  ghost predicate Routable(e: Entry)
  {
    match e
    case Host4(v) => v < WORD && !Reserved(v)
    case Addresses(start, end) => start <= end < WORD && !Reserved(start) && !Reserved(end)
    case Host6(text) => exists groups :: IsAddress(groups) && text == CanonicalText(groups) && !ReservedV6(groups)
    case Domain(name) => exists front, last :: IsHostName(name, front, last)
  }

  lemma EntryIsRoutable(i: Indicator)
    requires EntryOf(i).Some?
    ensures Routable(EntryOf(i).value)
  {
    match i.kind {
      case V4 =>
        HostAccepted(i);
        Ipv4Bound(i.value);
      case Block =>
        BlockAccepted(i);
        var base, bits := ParsedBlock(i.value);
        BlockFits(base, bits);
      case V6 =>
        var groups := CanonicalIsCanonicalText(i.value);
        HostV6Accepted(i, groups);
      case Name =>
        var front, last := OnlyHostNames(i.value);
    }
  }

  /** Over any run: no accepted host is reserved, nor either end of an accepted block, in IPv4 and in IPv6. */
  lemma NothingReserved(max: nat, ops: seq<Op>, k: nat)
    requires k < |Run(max, ops).log|
    ensures Routable(Run(max, ops).log[k].entry)
  {
    LogIsParsed(max, ops, k);
    EntryIsRoutable(Run(max, ops).log[k].indicator);
  }

  /** So no reserved IPv4 address is ever held as a host. */
  lemma ReservedNeverListed(max: nat, ops: seq<Op>, v: nat)
    requires Reserved(v)
    ensures v !in Run(max, ops).index.ipv4
  {
    var l := Run(max, ops);
    RunsAreConsistent(max, ops);
    assert Get(l.index.ipv4, v) == Newest(l.log, Host4(v));
    NewestIsLogged(l.log, Host4(v));
    if k :| 0 <= k < |l.log| && l.log[k].entry == Host4(v) {
      NothingReserved(max, ops, k);
    }
  }

  // ---------- what is kept beside an indicator ----------

  /** The feed's note, without the blanks around it; a blank note is none. */
  lemma NoteKept(i: Indicator) returns (before: string, after: string)
    ensures MetaOf(i).source == i.source
    ensures i.note.None? ==> MetaOf(i).note == None
    ensures i.note.Some? ==> AllSpaces(before) && AllSpaces(after)
    ensures i.note.Some? && MetaOf(i).note.None? ==> i.note.value == before + after
    ensures i.note.Some? && MetaOf(i).note.Some? ==>
              var text := MetaOf(i).note.value;
              i.note.value == before + text + after && text != "" && Trimmed(text)
  {
    before, after := "", "";
    if i.note.Some? {
      before, after := TrimTakes(i.note.value);
      if Trim(i.note.value) == "" { assert before + "" + after == before + after; }
    }
  }
}
