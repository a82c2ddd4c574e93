/**
 Which texts are addresses, said by how they are put together: a dotted quad, eight groups, or two
 runs of groups around one elision. The parsers accept these and nothing else.
 */
module AddressGrammar {
  import opened Options
  import opened Radix
  import opened Text
  import opened Bytes
  import opened Addresses
  import opened AddressText

  // ---------- IPv4 ----------

  /** One to three decimal digits, at most 255. */
  ghost predicate Octet(part: string)
  {
    1 <= |part| <= 3 && (forall i :: 0 <= i < |part| ==> '0' <= part[i] <= '9') && Parse(10, part) <= 255
  }

  ghost predicate IsQuad(address: string, parts: seq<string>)
  {
    |parts| == 4 && address == Join(parts, ".") && forall i :: 0 <= i < 4 ==> Octet(parts[i])
  }

  /** A dotted quad is read as its base-256 number, first octet most significant. */
  lemma QuadAccepted(address: string, parts: seq<string>)
    requires IsQuad(address, parts)
    ensures Ipv4ToInt(address) ==
            Some(((Parse(10, parts[0]) * 256 + Parse(10, parts[1])) * 256 + Parse(10, parts[2])) * 256 +
                 Parse(10, parts[3]))
  {
    forall i | 0 <= i < 4 ensures '.' !in parts[i] && IsOctet(parts[i]) { assert Octet(parts[i]); }
    SplitJoin(parts, '.');
    var octets := Octets(address).value;
    assert octets == [octets[0], octets[1], octets[2], octets[3]];
    FourDigits(octets[0], octets[1], octets[2], octets[3]);
  }

  lemma FourDigits(a: nat, b: nat, c: nat, d: nat)
    ensures Value(256, [a, b, c, d]) == ((a * 256 + b) * 256 + c) * 256 + d
  {
    assert [] + [a] == [a] && [a] + [b] == [a, b] && [a, b] + [c] == [a, b, c] && [a, b, c] + [d] == [a, b, c, d];
    ValueSnoc(256, [], 0, a);
    ValueSnoc(256, [a], a, b);
    ValueSnoc(256, [a, b], a * 256 + b, c);
    ValueSnoc(256, [a, b, c], (a * 256 + b) * 256 + c, d);
  }

  /** Nothing else is read. */
  lemma OnlyQuads(address: string) returns (parts: seq<string>)
    requires Ipv4ToInt(address).Some?
    ensures IsQuad(address, parts)
  {
    parts := Split(address, ".");
    JoinSplit(address, ".");
    forall i | 0 <= i < 4 ensures Octet(parts[i]) { assert IsOctet(parts[i]); }
  }

  // ---------- IPv6 ----------

  /** One to four lower-case hexadecimal digits. */
  ghost predicate Group(g: string)
  {
    1 <= |g| <= 4 && forall i :: 0 <= i < |g| ==> '0' <= g[i] <= '9' || 'a' <= g[i] <= 'f'
  }

  ghost predicate AllGroups(gs: seq<string>) { forall i :: 0 <= i < |gs| ==> Group(gs[i]) }

  ghost predicate Full(t: string, gs: seq<string>) { |gs| == 8 && AllGroups(gs) && t == Join(gs, ":") }

  /** At most seven groups, and one elision for the rest. */
  ghost predicate Elided(t: string, head: seq<string>, tail: seq<string>)
  {
    |head| + |tail| <= 7 && AllGroups(head) && AllGroups(tail) && t == Join(head, ":") + "::" + Join(tail, ":")
  }

  lemma GroupsAreHex(gs: seq<string>)
    requires AllGroups(gs)
    ensures forall i :: 0 <= i < |gs| ==> HexGroup(gs[i])
  {
    forall i | 0 <= i < |gs| ensures HexGroup(gs[i]) { assert Group(gs[i]); }
  }

  lemma Canonicalised(address: string, t: string, gs: seq<string>)
    requires t == ToLower(Trim(address)) && ':' in t && forall i :: 0 <= i < |t| ==> IsIpv6Char(t[i])
    requires ExpandedGroups(t) == Some(gs) && |gs| == 8 && AllGroups(gs)
    ensures CanonicalIpv6(address) == Some(CanonicalText(GroupValues(gs))) && IsAddress(GroupValues(gs))
  {
    PlainText(t);
    forall i | 0 <= i < 8 ensures StripAll(gs)[i] == HexGroups(GroupValues(gs))[i] && GroupValues(gs)[i] < 0x1_0000 {
      assert Group(gs[i]);
      GroupNormalises(gs[i]);
    }
    assert StripAll(gs) == HexGroups(GroupValues(gs));
    assert forall i :: 0 <= i < 8 ==> 1 <= |gs[i]| <= 4 by { assert forall i :: 0 <= i < 8 ==> Group(gs[i]); }
    assert RawGroups(address) == Some(gs);
  }

  /** Eight groups, in any case and between any blanks, are read as they stand. */
  lemma FullAccepted(address: string, gs: seq<string>)
    requires Full(ToLower(Trim(address)), gs)
    ensures CanonicalIpv6(address) == Some(CanonicalText(GroupValues(gs))) && IsAddress(GroupValues(gs))
  {
    var t := ToLower(Trim(address));
    GroupsAreHex(gs);
    JoinTidy(gs);
    ExpandedTidy(gs);
    assert t[|gs[0]|] == ':';
    Canonicalised(address, t, gs);
  }

  lemma ElidedReads(t: string, head: seq<string>, tail: seq<string>)
    requires Elided(t, head, tail)
    ensures ExpandedGroups(t) == Some(head + ZeroGroups(8 - |head| - |tail|) + tail)
    ensures ':' in t && forall i :: 0 <= i < |t| ==> IsIpv6Char(t[i])
  {
    GroupsAreHex(head);
    GroupsAreHex(tail);
    ExpandedElided(head, tail);
    ElidedChars(head, tail, t);
  }

  lemma FilledIn(head: seq<string>, tail: seq<string>)
    requires |head| + |tail| <= 7 && AllGroups(head) && AllGroups(tail)
    ensures var gs := head + ZeroGroups(8 - |head| - |tail|) + tail; |gs| == 8 && AllGroups(gs)
  {
  }

  /** An elision stands for as many zero groups as are missing. */
  lemma ElidedAccepted(address: string, head: seq<string>, tail: seq<string>)
    requires Elided(ToLower(Trim(address)), head, tail)
    ensures var gs := head + ZeroGroups(8 - |head| - |tail|) + tail;
            CanonicalIpv6(address) == Some(CanonicalText(GroupValues(gs))) && IsAddress(GroupValues(gs))
  {
    var t := ToLower(Trim(address));
    ElidedReads(t, head, tail);
    FilledIn(head, tail);
    Canonicalised(address, t, head + ZeroGroups(8 - |head| - |tail|) + tail);
  }

  lemma HalfIsGroups(half: string) returns (gs: seq<string>)
    requires SplitHalf(half).Some?
    ensures gs == SplitHalf(half).value && half == Join(gs, ":")
  {
    gs := SplitHalf(half).value;
    JoinSplit(half, ":");
  }

  lemma RawAreGroups(address: string)
    requires RawGroups(address).Some?
    ensures AllGroups(RawGroups(address).value)
  {
    RawGroupsAreHex(address);
    var raw := RawGroups(address).value;
    forall i | 0 <= i < 8 ensures Group(raw[i]) {
      assert AllDigits(16, raw[i]) && 1 <= |raw[i]| <= 4;
    }
  }

  lemma WrittenInFull(address: string, value: string)
    requires RawGroups(address).Some? && value == ToLower(Trim(address)) && |Split(value, "::")| == 1
    ensures Full(value, RawGroups(address).value)
  {
    RawAreGroups(address);
    JoinSplit(value, "::");
    var gs := HalfIsGroups(Split(value, "::")[0]);
  }

  lemma PartsAreGroups(head: seq<string>, middle: seq<string>, tail: seq<string>)
    requires AllGroups(head + middle + tail)
    ensures AllGroups(head) && AllGroups(tail)
  {
    var all := head + middle + tail;
    forall i | 0 <= i < |head| ensures Group(head[i]) { assert all[i] == head[i]; }
    forall i | 0 <= i < |tail| ensures Group(tail[i]) { assert all[|head| + |middle| + i] == tail[i]; }
  }

  lemma WrittenElided(address: string, value: string) returns (head: seq<string>, tail: seq<string>)
    requires RawGroups(address).Some? && value == ToLower(Trim(address)) && |Split(value, "::")| == 2
    ensures Elided(value, head, tail)
  {
    RawAreGroups(address);
    var halves := Split(value, "::");
    var raw := ElisionFilled(address, value, halves);
    head := HalfIsGroups(halves[0]);
    tail := HalfIsGroups(halves[1]);
    PutTogether(value, halves, head, tail, raw);
  }

  lemma PutTogether(value: string, halves: seq<string>, head: seq<string>, tail: seq<string>, raw: seq<string>)
    requires halves == Split(value, "::") && |halves| == 2 && AllGroups(raw) && |head| + |tail| <= 7
    requires halves[0] == Join(head, ":") && halves[1] == Join(tail, ":")
    requires raw == head + ZeroGroups(8 - |head| - |tail|) + tail
    ensures Elided(value, head, tail)
  {
    PartsAreGroups(head, ZeroGroups(8 - |head| - |tail|), tail);
    JoinSplit(value, "::");
    TwoHalves(value, halves);
  }

  lemma ElisionFilled(address: string, value: string, halves: seq<string>) returns (raw: seq<string>)
    requires RawGroups(address).Some? && value == ToLower(Trim(address))
    requires halves == Split(value, "::") && |halves| == 2
    ensures raw == RawGroups(address).value && SplitHalf(halves[0]).Some? && SplitHalf(halves[1]).Some?
    ensures var head, tail := SplitHalf(halves[0]).value, SplitHalf(halves[1]).value;
            |head| + |tail| <= 7 && raw == head + ZeroGroups(8 - |head| - |tail|) + tail
  {
    raw := RawGroups(address).value;
    assert Some(raw) == ExpandedGroups(value) == FillElision(SplitHalf(halves[0]), SplitHalf(halves[1]));
  }

  lemma TwoHalves(value: string, halves: seq<string>)
    requires |halves| == 2 && Join(halves, "::") == value
    ensures value == halves[0] + "::" + halves[1]
  {
    assert halves[1..] == [halves[1]];
  }

  /** Nothing else is read. */
  lemma OnlyAddresses(address: string) returns (head: seq<string>, tail: seq<string>)
    requires CanonicalIpv6(address).Some?
    ensures Full(ToLower(Trim(address)), head) || Elided(ToLower(Trim(address)), head, tail)
  {
    var value := ToLower(Trim(address));
    if |Split(value, "::")| == 1 {
      head, tail := RawGroups(address).value, [];
      WrittenInFull(address, value);
    } else {
      head, tail := WrittenElided(address, value);
    }
  }

  // ---------- printing ----------

  /** The text printed for sixteen bytes: the groups in lower-case hexadecimal without leading zeros, and in place
      of the leftmost longest run of zero groups, if it is of two or more, two colons. */
  lemma PrintedIpv6(groups: seq<nat>, start: int, length: int)
    requires IsAddress(groups) && LeftmostLongest(groups, start, length) && length >= 0
    ensures CompressedText(groups) ==
            if length >= 2
            then Join(HexGroups(groups[..start]), ":") + "::" + Join(HexGroups(groups[start + length..]), ":")
            else Join(HexGroups(groups), ":")
  {
    BestRunIsLeftmostLongest(groups, start, length);
    if length >= 2 {
      assert HexGroups(groups)[..start] == HexGroups(groups[..start]);
      assert HexGroups(groups)[start + length..] == HexGroups(groups[start + length..]);
    }
  }

  /** A hexadecimal text has no leading zero, and its digits are lower case. */
  lemma HexIsShortest(v: nat)
    ensures forall i :: 0 <= i < |Hex(v)| ==> '0' <= Hex(v)[i] <= '9' || 'a' <= Hex(v)[i] <= 'f'
    ensures |Hex(v)| > 1 ==> Hex(v)[0] != '0'
    ensures Parse(16, Hex(v)) == v
  {
    ParsePrint(16, v);
  }

  // ---------- link addresses ----------

  lemma {:induction false} JoinPairs(parts: seq<string>, i: nat)
    requires i < |parts| && forall k :: 0 <= k < |parts| ==> |parts[k]| == 2
    ensures |Join(parts, ":")| == 3 * |parts| - 1 && Join(parts, ":")[3 * i..3 * i + 2] == parts[i]
    ensures i + 1 < |parts| ==> Join(parts, ":")[3 * i + 2] == ':'
  {
    if |parts| > 1 {
      var rest := Join(parts[1..], ":");
      assert Join(parts, ":") == parts[0] + ":" + rest;
      JoinPairs(parts[1..], if i == 0 then 0 else i - 1);
      if i > 0 {
        assert Join(parts, ":")[3 * i..3 * i + 2] == rest[3 * (i - 1)..3 * (i - 1) + 2];
        assert i + 1 < |parts| ==> Join(parts, ":")[3 * i + 2] == rest[3 * (i - 1) + 2];
      }
    }
  }

  lemma PairDigits(b: nat)
    requires b < 256
    ensures var s := Render(Digits(16, b, 2));
            |s| == 2 && Group(s) && Parse(16, s) == b
  {
    var ds := Digits(16, b, 2);
    assert Pow(16, 2) == 256;
    ValueOfDigits(16, b, 2);
    RenderRoundTrip(16, ds);
  }

  /** A MAC address is printed as its six bytes, each in two lower-case hexadecimal digits, colons between. */
  lemma PrintedMac(buffer: seq<Byte>, offset: nat, i: nat)
    requires i < 6
    ensures var text := ReadMac(buffer, offset);
            |text| == 17 && Group(text[3 * i..3 * i + 2]) &&
            Parse(16, text[3 * i..3 * i + 2]) == ByteAt(buffer, offset + i) &&
            (i < 5 ==> text[3 * i + 2] == ':')
  {
    var parts := seq(6, k requires 0 <= k < 6 => Render(Digits(16, ByteAt(buffer, offset + k), 2)));
    forall k | 0 <= k < 6 ensures |parts[k]| == 2 { PairDigits(ByteAt(buffer, offset + k)); }
    JoinPairs(parts, i);
    PairDigits(ByteAt(buffer, offset + i));
  }
}
