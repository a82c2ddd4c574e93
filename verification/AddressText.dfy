/** Reading IPv4 and IPv6 text, and the one spelling kept for each IPv6 address. */
module AddressText {
  import opened Options
  import opened Radix
  import opened Text
  import opened Bytes
  import opened Addresses

  // ---------- IPv4 ----------

  predicate IsOctet(part: string)
  {
    1 <= |part| <= 3 && AllDigits(10, part) && Parse(10, part) <= 255
  }

  /** The four octets of a dotted quad, most significant first. */
  function Octets(address: string): Option<seq<nat>>
  {
    var parts := Split(address, ".");
    if |parts| == 4 && forall i :: 0 <= i < 4 ==> IsOctet(parts[i])
    then Some(seq(4, i requires 0 <= i < 4 => Parse(10, parts[i])))
    else None
  }

  function Ipv4ToInt(address: string): Option<nat>
  {
    match Octets(address)
    case None => None
    case Some(octets) => Some(Value(256, octets))
  }

  method ReadDottedQuad(address: string) returns (r: Option<nat>)
    ensures r == Ipv4ToInt(address)
  {
    var parts := Split(address, ".");
    if |parts| != 4 { return None; }
    var value := 0;
    ghost var octets: seq<nat> := [];
    for i := 0 to 4
      invariant |octets| == i && value == Value(256, octets)
      invariant forall j :: 0 <= j < i ==> IsOctet(parts[j]) && octets[j] == Parse(10, parts[j])
    {
      if |parts[i]| == 0 || |parts[i]| > 3 || !AllDigits(10, parts[i]) { return None; }
      var octet := Parse(10, parts[i]);
      if octet > 255 { return None; }
      value := value * 256 + octet;
      assert (octets + [octet])[..i] == octets;
      octets := octets + [octet];
    }
    assert octets == Octets(address).value;
    return Some(value);
  }

  lemma Ipv4Bound(address: string)
    requires Ipv4ToInt(address).Some?
    ensures Ipv4ToInt(address).value < 0x1_0000_0000
  {
    ValueBound(256, Octets(address).value);
    Widths();
  }

  function IntToIpv4(v: nat): string
  {
    Join(seq(4, i requires 0 <= i < 4 => Dec(Digits(256, v, 4)[i])), ".")
  }

  lemma DecOctet(v: nat)
    requires v < 256
    ensures IsOctet(Dec(v)) && Parse(10, Dec(v)) == v && '.' !in Dec(v)
  {
    ParsePrint(10, v);
    assert Pow(10, 3) == 1000 by { assert Pow(10, 1) == 10 && Pow(10, 2) == 100; }
    MinDigitsLength(10, v, 3);
  }

  /** Four printed octets read back as their base-256 number. */
  lemma DottedQuad(octets: seq<nat>)
    requires |octets| == 4 && AreDigits(256, octets)
    ensures Ipv4ToInt(Join(seq(4, i requires 0 <= i < 4 => Dec(octets[i])), ".")) == Some(Value(256, octets))
  {
    var parts := seq(4, i requires 0 <= i < 4 => Dec(octets[i]));
    forall i | 0 <= i < 4 ensures '.' !in parts[i] && IsOctet(parts[i]) && Parse(10, parts[i]) == octets[i] {
      DecOctet(octets[i]);
    }
    SplitJoin(parts, '.');
    assert Octets(Join(parts, ".")).value == octets;
  }

  lemma Ipv4PrintRead(v: nat)
    requires v < 0x1_0000_0000
    ensures Ipv4ToInt(IntToIpv4(v)) == Some(v)
  {
    DottedQuad(Digits(256, v, 4));
    Widths();
    ValueOfDigits(256, v, 4);
  }

  /** A printed packet address reads back as its four bytes. */
  lemma ReadIpv4RoundTrip(buffer: seq<Byte>, offset: nat)
    requires offset + 4 <= |buffer|
    ensures Ipv4ToInt(ReadIpv4(buffer, offset)) == Some(ReadAt(buffer, offset, 4))
  {
    var octets: seq<nat> := buffer[offset..offset + 4];
    DottedQuad(octets);
    var left := seq(4, i requires 0 <= i < 4 => Dec(octets[i]));
    var right := seq(4, i requires 0 <= i < 4 => Dec(ByteAt(buffer, offset + i)));
    forall i | 0 <= i < 4 ensures left[i] == right[i] {
      assert octets[i] == ByteAt(buffer, offset + i);
    }
    assert left == right;
  }

  // ---------- IPv6 ----------

  predicate IsIpv6Char(c: char) { IsDigit(16, c) || c == ':' }

  /** The groups of one side of an elision: none when it is empty, and none of them empty. */
  function SplitHalf(half: string): Option<seq<string>>
  {
    if half == "" then Some([])
    else if "" in Split(half, ":") then None
    else Some(Split(half, ":"))
  }

  /** The groups of an address with the elision expanded, before they are normalised. */
  function ExpandedGroups(value: string): Option<seq<string>>
  {
    var halves := Split(value, "::");
    if |halves| > 2 then None
    else if |halves| == 1 then SplitHalf(halves[0])
    else FillElision(SplitHalf(halves[0]), SplitHalf(halves[1]))
  }

  function ZeroGroups(n: nat): seq<string> { seq(n, _ => "0") }

  /** `::` stands for at least one zero group. */
  function FillElision(head: Option<seq<string>>, tail: Option<seq<string>>): Option<seq<string>>
  {
    if head.None? || tail.None? then None else
    var missing: int := 8 - |head.value| - |tail.value|;
    if missing < 1 then None else Some(head.value + ZeroGroups(missing) + tail.value)
  }

  /** The eight groups as written, or None when this is not a plain IPv6 literal. */
  function RawGroups(address: string): (groups: Option<seq<string>>)
    ensures groups.Some? ==> |groups.value| == 8
  {
    var value := ToLower(Trim(address));
    if value == "" || ':' !in value then None
    else if '.' in value || '%' in value then None
    else if exists i :: 0 <= i < |value| && !IsIpv6Char(value[i]) then None
    else match ExpandedGroups(value)
         case None => None
         case Some(groups) =>
           if |groups| != 8 || exists i :: 0 <= i < 8 && (|groups[i]| == 0 || |groups[i]| > 4) then None
           else Some(groups)
  }

  function StripAll(groups: seq<string>): seq<string>
  {
    seq(|groups|, i requires 0 <= i < |groups| => StripZeros(groups[i]))
  }

  function CanonicalIpv6(address: string): Option<string>
  {
    match RawGroups(address)
    case None => None
    case Some(groups) => Some(Join(StripAll(groups), ":"))
  }

  method Canonicalize(address: string) returns (r: Option<string>)
    ensures r == CanonicalIpv6(address)
  {
    var value := ToLower(Trim(address));
    if value == "" || ':' !in value { return None; }
    if '.' in value || '%' in value { return None; }
    if exists i :: 0 <= i < |value| && !IsIpv6Char(value[i]) { return None; }
    var expanded := ExpandedGroups(value);
    if expanded.None? || |expanded.value| != 8 { return None; }
    var normalized := Normalize(expanded.value);
    if normalized.None? { return None; }
    return Some(Join(normalized.value, ":"));
  }

  method Normalize(groups: seq<string>) returns (r: Option<seq<string>>)
    ensures r.Some? <==> forall i :: 0 <= i < |groups| ==> 1 <= |groups[i]| <= 4
    ensures r.Some? ==> r.value == StripAll(groups)
  {
    var normalized := [];
    for i := 0 to |groups|
      invariant normalized == StripAll(groups[..i])
      invariant forall j :: 0 <= j < i ==> 1 <= |groups[j]| <= 4
    {
      if |groups[i]| == 0 || |groups[i]| > 4 { return None; }
      normalized := normalized + [StripZeros(groups[i])];
    }
    assert groups[..|groups|] == groups;
    return Some(normalized);
  }

  /** The text form kept for an address: eight shortest lower-case hexadecimal groups. */
  function CanonicalText(groups: seq<nat>): string { Join(HexGroups(groups), ":") }

  ghost predicate IsAddress(groups: seq<nat>)
  {
    |groups| == 8 && AreDigits(0x1_0000, groups)
  }

  /** No two colons in a row, and none at either end. */
  ghost predicate Tidy(s: string)
  {
    (forall i :: 0 <= i < |s| ==> IsIpv6Char(s[i])) &&
    (forall i :: 0 <= i < |s| - 1 ==> !(s[i] == ':' && s[i + 1] == ':')) &&
    (s != "" ==> s[0] != ':' && s[|s| - 1] != ':')
  }

  ghost predicate HexGroup(group: string)
  {
    group != "" && AllDigits(16, group)
  }

  lemma {:induction false} JoinTidy(groups: seq<string>)
    requires forall i :: 0 <= i < |groups| ==> HexGroup(groups[i])
    ensures Tidy(Join(groups, ":"))
    ensures Join(groups, ":") == "" <==> groups == []
  {
    if groups != [] {
      assert HexGroup(groups[0]);
      if |groups| > 1 {
        JoinTidy(groups[1..]);
        var a, b := groups[0], Join(groups[1..], ":");
        var s := a + ":" + b;
        forall i | 0 <= i < |s| ensures IsIpv6Char(s[i]) {
          assert s[i] == if i < |a| then a[i] else if i == |a| then ':' else b[i - |a| - 1];
        }
      }
    }
  }

  lemma TidySplits(s: string)
    requires Tidy(s)
    ensures StartsNowhere(s, "::") && OccursNowhere(s, "::")
  {
    forall i | 0 <= i < |s| ensures !("::" <= (s + "::")[i..]) {
      var t := (s + "::")[i..];
      assert t[0] == s[i] && t[1] == (if i + 1 < |s| then s[i + 1] else ':');
    }
    forall i | 0 <= i <= |s| ensures !("::" <= s[i..]) {
      var t := s[i..];
      if |t| >= 2 {
        assert t[0] == s[i] && t[1] == s[i + 1];
      }
    }
  }

  lemma SplitHalfOfJoin(groups: seq<string>)
    requires forall i :: 0 <= i < |groups| ==> HexGroup(groups[i])
    ensures SplitHalf(Join(groups, ":")) == Some(groups)
  {
    JoinTidy(groups);
    if groups != [] {
      forall i | 0 <= i < |groups| ensures ':' !in groups[i] && groups[i] != "" {
        assert HexGroup(groups[i]);
      }
      SplitJoin(groups, ':');
    }
  }

  /** Text made of the address characters passes the first checks unchanged. */
  lemma PlainText(s: string)
    requires forall i :: 0 <= i < |s| ==> IsIpv6Char(s[i])
    ensures Trim(s) == s && ToLower(s) == s && '.' !in s && '%' !in s
  {
  }

  lemma HexGroupsAreHex(groups: seq<nat>)
    requires AreDigits(0x1_0000, groups)
    ensures forall i :: 0 <= i < |groups| ==>
              HexGroup(HexGroups(groups)[i]) && |HexGroups(groups)[i]| <= 4 &&
              StripZeros(HexGroups(groups)[i]) == HexGroups(groups)[i]
  {
    forall i | 0 <= i < |groups|
      ensures HexGroup(Hex(groups[i])) && |Hex(groups[i])| <= 4 && StripZeros(Hex(groups[i])) == Hex(groups[i])
    {
      ParsePrint(16, groups[i]);
      assert Pow(16, 4) == 0x1_0000 by {
        assert Pow(16, 1) == 16 && Pow(16, 2) == 256 && Pow(16, 3) == 4096;
      }
      MinDigitsLength(16, groups[i], 4);
      StripIsPrint(16, Hex(groups[i]));
    }
  }

  /** The last steps of the canonicaliser, once the groups are known. */
  lemma CanonicalFromGroups(s: string, hex: seq<string>)
    requires (forall i :: 0 <= i < |s| ==> IsIpv6Char(s[i])) && ':' in s
    requires ExpandedGroups(s) == Some(hex) && |hex| == 8
    requires forall i :: 0 <= i < 8 ==> 1 <= |hex[i]| <= 4 && StripZeros(hex[i]) == hex[i]
    ensures CanonicalIpv6(s) == Some(Join(hex, ":"))
  {
    PlainText(s);
    assert StripAll(hex) == hex;
  }

  lemma ExpandedTidy(groups: seq<string>)
    requires |groups| >= 1 && forall i :: 0 <= i < |groups| ==> HexGroup(groups[i])
    ensures ExpandedGroups(Join(groups, ":")) == Some(groups)
  {
    var s := Join(groups, ":");
    JoinTidy(groups);
    TidySplits(s);
    SplitWhole(s, "::");
    SplitHalfOfJoin(groups);
  }

  lemma ExpandedElided(head: seq<string>, tail: seq<string>)
    requires |head| + |tail| < 8
    requires forall i :: 0 <= i < |head| ==> HexGroup(head[i])
    requires forall i :: 0 <= i < |tail| ==> HexGroup(tail[i])
    ensures ExpandedGroups(Join(head, ":") + "::" + Join(tail, ":")) ==
            FillElision(Some(head), Some(tail))
  {
    var h, t := Join(head, ":"), Join(tail, ":");
    SplitHalfOfJoin(head);
    SplitHalfOfJoin(tail);
    SplitElided(head, tail);
    ExpandedOfHalves(h + "::" + t, h, t);
  }

  lemma ExpandedOfHalves(value: string, h: string, t: string)
    requires Split(value, "::") == [h, t]
    ensures ExpandedGroups(value) == FillElision(SplitHalf(h), SplitHalf(t))
  {
  }

  lemma SplitElided(head: seq<string>, tail: seq<string>)
    requires forall i :: 0 <= i < |head| ==> HexGroup(head[i])
    requires forall i :: 0 <= i < |tail| ==> HexGroup(tail[i])
    ensures Split(Join(head, ":") + "::" + Join(tail, ":"), "::") == [Join(head, ":"), Join(tail, ":")]
  {
    JoinTidy(head);
    JoinTidy(tail);
    TidySplits(Join(head, ":"));
    TidySplits(Join(tail, ":"));
    SplitFirst(Join(head, ":"), "::", Join(tail, ":"));
    SplitWhole(Join(tail, ":"), "::");
  }

  lemma ElidedChars(head: seq<string>, tail: seq<string>, s: string)
    requires forall i :: 0 <= i < |head| ==> HexGroup(head[i])
    requires forall i :: 0 <= i < |tail| ==> HexGroup(tail[i])
    requires s == Join(head, ":") + "::" + Join(tail, ":")
    ensures ':' in s && forall i :: 0 <= i < |s| ==> IsIpv6Char(s[i])
  {
    JoinTidy(head);
    JoinTidy(tail);
    assert s[|Join(head, ":")|] == ':';
  }

  /** The canonical text is its own canonical form. */
  lemma CanonicalOfCanonical(groups: seq<nat>)
    requires IsAddress(groups)
    ensures CanonicalIpv6(CanonicalText(groups)) == Some(CanonicalText(groups))
  {
    var hex, s := HexGroups(groups), CanonicalText(groups);
    HexGroupsAreHex(groups);
    JoinTidy(hex);
    ExpandedTidy(hex);
    assert s[|hex[0]|] == ':';
    CanonicalFromGroups(s, hex);
  }

  lemma ElisionIsZeros(groups: seq<nat>)
    requires BestRun(groups).1 > 0
    ensures var (start, length) := BestRun(groups);
            HexGroups(groups)[..start] + ZeroGroups(length) + HexGroups(groups)[start + length..] == HexGroups(groups)
  {
    var (start, length) := BestRun(groups);
    var hex := HexGroups(groups);
    BestRunFromIsBest(groups, 0);
    assert MinDigits(16, 0) == [0] && Hex(0) == "0";
    forall i | start <= i < start + length ensures hex[i] == "0" {
      assert groups[i] == 0;
    }
    assert hex[start..start + length] == ZeroGroups(length);
    assert hex == hex[..start] + hex[start..start + length] + hex[start + length..];
  }

  /** The printed text of an address with an elision has exactly its groups. */
  lemma ElidedExpands(groups: seq<nat>)
    requires IsAddress(groups) && BestRun(groups).1 >= 2
    ensures ExpandedGroups(CompressedText(groups)) == Some(HexGroups(groups))
    ensures ':' in CompressedText(groups)
    ensures forall i :: 0 <= i < |CompressedText(groups)| ==> IsIpv6Char(CompressedText(groups)[i])
  {
    var (start, length) := BestRun(groups);
    var hex := HexGroups(groups);
    var head, tail := hex[..start], hex[start + length..];
    assert forall i :: 0 <= i < |hex| ==> HexGroup(hex[i]) by { HexGroupsAreHex(groups); }
    ExpandedElided(head, tail);
    ElidedChars(head, tail, CompressedText(groups));
    ElisionIsZeros(groups);
  }

  /** What the compressed printer leaves out, the canonicaliser puts back. */
  lemma CanonicalOfCompressed(groups: seq<nat>)
    requires IsAddress(groups)
    ensures CanonicalIpv6(CompressedText(groups)) == Some(CanonicalText(groups))
  {
    if BestRun(groups).1 < 2 {
      CanonicalOfCanonical(groups);
    } else {
      ElidedExpands(groups);
      HexGroupsAreHex(groups);
      CanonicalFromGroups(CompressedText(groups), HexGroups(groups));
    }
  }

  // ---------- the 128-bit value ----------

  function GroupValues(groups: seq<string>): seq<nat>
  {
    seq(|groups|, i requires 0 <= i < |groups| => Parse(16, groups[i]))
  }

  function Ipv6ToBigInt(canonical: string): nat
  {
    Value(0x1_0000, GroupValues(Split(canonical, ":")))
  }

  method ReadIpv6Value(canonical: string) returns (value: nat)
    ensures value == Ipv6ToBigInt(canonical)
  {
    var groups := Split(canonical, ":");
    value := 0;
    for i := 0 to |groups|
      invariant value == Value(0x1_0000, GroupValues(groups[..i]))
    {
      assert GroupValues(groups[..i + 1])[..i] == GroupValues(groups[..i]);
      value := value * 0x1_0000 + Parse(16, groups[i]);
    }
    assert groups[..|groups|] == groups;
  }

  function BigIntToIpv6(value: nat): string { CanonicalText(Digits(0x1_0000, value, 8)) }

  lemma ValueOfCanonical(groups: seq<nat>)
    requires IsAddress(groups)
    ensures Ipv6ToBigInt(CanonicalText(groups)) == Value(0x1_0000, groups)
  {
    var hex := HexGroups(groups);
    HexGroupsAreHex(groups);
    forall i | 0 <= i < 8 ensures ':' !in hex[i] && Parse(16, hex[i]) == groups[i] {
      assert HexGroup(hex[i]);
      ParsePrint(16, groups[i]);
    }
    SplitJoin(hex, ':');
    assert GroupValues(hex) == groups;
  }

  lemma Pow65536()
    ensures Pow(0x1_0000, 8) == 0x1_0000_0000_0000_0000_0000_0000_0000_0000
  {
    assert Pow(0x1_0000, 1) == 0x1_0000 && Pow(0x1_0000, 2) == 0x1_0000_0000;
    PowAdd(0x1_0000, 2, 2);
    PowAdd(0x1_0000, 4, 4);
  }

  lemma BigIntPrintRead(value: nat)
    requires value < 0x1_0000_0000_0000_0000_0000_0000_0000_0000
    ensures Ipv6ToBigInt(BigIntToIpv6(value)) == value
    ensures CanonicalIpv6(BigIntToIpv6(value)) == Some(BigIntToIpv6(value))
  {
    var groups := Digits(0x1_0000, value, 8);
    Pow65536();
    ValueOfDigits(0x1_0000, value, 8);
    ValueOfCanonical(groups);
    CanonicalOfCanonical(groups);
  }

  lemma RawGroupsAreHex(address: string)
    requires RawGroups(address).Some?
    ensures forall i :: 0 <= i < 8 ==> AllDigits(16, RawGroups(address).value[i])
  {
    var value := ToLower(Trim(address));
    var halves := Split(value, "::");
    forall k, i, j | 0 <= k < |halves| && halves[k] != "" &&
                     0 <= i < |Split(halves[k], ":")| && 0 <= j < |Split(halves[k], ":")[i]|
      ensures IsDigit(16, Split(halves[k], ":")[i][j])
    {
      var c := Split(halves[k], ":")[i][j];
      SplitChars(halves[k], ":", i, c);
      SplitChars(value, "::", k, c);
      SplitParts(halves[k], ':');
    }
    assert AllDigits(16, "0");
    forall i | 0 <= i < 8 ensures AllDigits(16, RawGroups(address).value[i]) {
    }
  }

  /** Whatever is accepted comes out in the canonical text of some address. */
  lemma CanonicalIsCanonicalText(address: string) returns (groups: seq<nat>)
    requires CanonicalIpv6(address).Some?
    ensures IsAddress(groups) && CanonicalIpv6(address).value == CanonicalText(groups)
    ensures groups == GroupValues(RawGroups(address).value)
  {
    var raw := RawGroups(address).value;
    groups := GroupValues(raw);
    RawGroupsAreHex(address);
    forall i | 0 <= i < 8 ensures groups[i] < 0x1_0000 && StripAll(raw)[i] == HexGroups(groups)[i] {
      GroupNormalises(raw[i]);
    }
    assert StripAll(raw) == HexGroups(groups);
  }

  lemma GroupNormalises(group: string)
    requires |group| <= 4 && AllDigits(16, group)
    ensures Parse(16, group) < 0x1_0000 && StripZeros(group) == Hex(Parse(16, group))
  {
    StripIsPrint(16, group);
    NumeralsRoundTrip(16, group);
    ValueBound(16, Numerals(group));
    PowMonotone(16, |group|, 4);
    assert Pow(16, 2) == 256 && Pow(16, 4) == 0x1_0000;
  }

  // ---------- main results ----------

  /** Print then parse, for every 16-byte address: the compressed text of section 4.2 of
      RFC 5952 canonicalises to the eight minimal groups, whose value is the address read as
      a big-endian number. */
  lemma PrintThenParse(bytes: seq<Byte>)
    requires |bytes| == 16
    ensures CanonicalIpv6(ReadIpv6(bytes, 0)) == Some(CanonicalText(Groups(bytes, 0)))
    ensures Ipv6ToBigInt(CanonicalIpv6(ReadIpv6(bytes, 0)).value) == ReadUint(bytes)
  {
    CanonicalOfCompressed(Groups(bytes, 0));
    ValueOfCanonical(Groups(bytes, 0));
    GroupsValue(bytes);
  }

  /** No two addresses share a printed form, nor a canonical one. */
  lemma AddressesNeverCollide(a: seq<Byte>, b: seq<Byte>)
    requires |a| == |b| == 16
    ensures CanonicalIpv6(ReadIpv6(a, 0)) == CanonicalIpv6(ReadIpv6(b, 0)) <==> a == b
  {
    PrintThenParse(a);
    PrintThenParse(b);
    if ReadUint(a) == ReadUint(b) {
      ReadUintInjective(a, b);
    }
  }

  /** Any two accepted spellings meet exactly when they denote the same 128-bit number,
      and canonicalising twice is canonicalising once. */
  lemma SpellingsMeet(a: string, b: string)
    requires CanonicalIpv6(a).Some? && CanonicalIpv6(b).Some?
    ensures CanonicalIpv6(a) == CanonicalIpv6(b) <==>
            Ipv6ToBigInt(CanonicalIpv6(a).value) == Ipv6ToBigInt(CanonicalIpv6(b).value)
    ensures CanonicalIpv6(CanonicalIpv6(a).value) == CanonicalIpv6(a)
    ensures Ipv6ToBigInt(CanonicalIpv6(a).value) < 0x1_0000_0000_0000_0000_0000_0000_0000_0000
  {
    var ga := CanonicalIsCanonicalText(a);
    var gb := CanonicalIsCanonicalText(b);
    ValueOfCanonical(ga);
    ValueOfCanonical(gb);
    CanonicalOfCanonical(ga);
    ValueBound(0x1_0000, ga);
    Pow65536();
    if Value(0x1_0000, ga) == Value(0x1_0000, gb) {
      ValueInjective(0x1_0000, ga, gb);
    }
  }
}
