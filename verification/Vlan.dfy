/** VLAN tags are transparent: the layers inside a frame do not depend on how many it wears, up to four. */
module Vlan {
  import opened Options
  import opened Radix
  import opened Bytes
  import opened Text
  import opened Addresses
  import opened PacketDecode

  // ---------- decoding is local: only what follows the offset matters ----------

  lemma ByteShift(frame: seq<Byte>, o: nat, k: nat)
    requires o <= |frame|
    ensures ByteAt(frame, o + k) == ByteAt(frame[o..], k)
  {
  }

  lemma Ipv4Shift(frame: seq<Byte>, o: nat, k: nat)
    requires o <= |frame|
    ensures ReadIpv4(frame, o + k) == ReadIpv4(frame[o..], k)
  {
    var a := seq(4, i requires 0 <= i < 4 => Dec(ByteAt(frame, o + k + i)));
    var b := seq(4, i requires 0 <= i < 4 => Dec(ByteAt(frame[o..], k + i)));
    forall i | 0 <= i < 4 ensures a[i] == b[i] {
      ByteShift(frame, o, k + i);
    }
    assert a == b;
  }

  lemma MacShift(frame: seq<Byte>, o: nat, k: nat)
    requires o <= |frame|
    ensures ReadMac(frame, o + k) == ReadMac(frame[o..], k)
  {
    var a := seq(6, i requires 0 <= i < 6 => Render(Digits(16, ByteAt(frame, o + k + i), 2)));
    var b := seq(6, i requires 0 <= i < 6 => Render(Digits(16, ByteAt(frame[o..], k + i), 2)));
    forall i | 0 <= i < 6 ensures a[i] == b[i] {
      ByteShift(frame, o, k + i);
    }
    assert a == b;
  }

  lemma Ipv6Shift(frame: seq<Byte>, o: nat, k: nat)
    requires o + k + 16 <= |frame|
    ensures ReadIpv6(frame, o + k) == ReadIpv6(frame[o..], k)
  {
    assert frame[o + k..o + k + 16] == frame[o..][k..k + 16];
    GroupsAreLocal(frame, o + k, frame[o..], k);
  }

  lemma DecodeIpv4Local(frame: seq<Byte>, o: nat)
    requires o <= |frame|
    ensures DecodeIpv4(frame, o) == DecodeIpv4(frame[o..], 0)
  {
    if o + 20 <= |frame| {
      U16Shift(frame, o, 2);
      U16Shift(frame, o, 4);
      U16Shift(frame, o, 6);
      U16Shift(frame, o, 10);
      Ipv4Shift(frame, o, 12);
      Ipv4Shift(frame, o, 16);
    }
  }

  lemma DecodeIpv6Local(frame: seq<Byte>, o: nat)
    requires o <= |frame|
    ensures DecodeIpv6(frame, o) == DecodeIpv6(frame[o..], 0)
  {
    if o + 40 <= |frame| {
      U32Shift(frame, o, 0);
      U16Shift(frame, o, 4);
      Ipv6Shift(frame, o, 8);
      Ipv6Shift(frame, o, 24);
    }
  }

  lemma DecodeArpLocal(frame: seq<Byte>, o: nat)
    requires o <= |frame|
    ensures DecodeArp(frame, o) == DecodeArp(frame[o..], 0)
  {
    if o + 28 <= |frame| {
      U16Shift(frame, o, 0);
      U16Shift(frame, o, 2);
      U16Shift(frame, o, 6);
      MacShift(frame, o, 8);
      MacShift(frame, o, 18);
      Ipv4Shift(frame, o, 14);
      Ipv4Shift(frame, o, 24);
    }
  }

  lemma DecodeTcpLocal(frame: seq<Byte>, o: nat, k: nat)
    requires o + k + 20 <= |frame|
    ensures DecodeTcp(frame, o + k) == DecodeTcp(frame[o..], k)
  {
    U16Shift(frame, o, k);
    U16Shift(frame, o, k + 2);
    U32Shift(frame, o, k + 4);
    U32Shift(frame, o, k + 8);
    U16Shift(frame, o, k + 14);
    U16Shift(frame, o, k + 16);
    U16Shift(frame, o, k + 18);
  }

  lemma SliceShift(frame: seq<Byte>, o: nat, from: nat, to: nat)
    requires o + to <= |frame|
    ensures Slice(frame, o + from, o + to) == Slice(frame[o..], from, to)
  {
    if from < to { assert frame[o + from..o + to] == frame[o..][from..to]; }
  }

  lemma TransportLocal(frame: seq<Byte>, o: nat, k: nat, protocol: nat, end: nat)
    requires o <= |frame|
    ensures DecodeTransport(frame, o + k, protocol, o + end) == DecodeTransport(frame[o..], k, protocol, end)
  {
    var limit := Limit(frame[o..], k, end);
    assert Limit(frame, o + k, o + end) == o + limit;
    if protocol == TCP && o + k + 20 <= |frame| {
      DecodeTcpLocal(frame, o, k);
      SliceShift(frame, o, k + AtLeast(20, DecodeTcp(frame, o + k).dataOffset), limit);
    }
    if protocol == UDP && o + k + 8 <= |frame| {
      U16Shift(frame, o, k);
      U16Shift(frame, o, k + 2);
      U16Shift(frame, o, k + 4);
      U16Shift(frame, o, k + 6);
      SliceShift(frame, o, k + 8, limit);
    }
  }

  lemma TrailingLocal(frame: seq<Byte>, o: nat, end: nat)
    requires o <= |frame| && end > 0
    ensures TrailingBytes(frame, o + end) == TrailingBytes(frame[o..], end)
  {
    if o + end < |frame| { assert frame[o + end..] == frame[o..][end..]; }
  }

  lemma Ipv4BodyLocal(frame: seq<Byte>, o: nat, h: Ipv4Header)
    requires o <= |frame| && h.totalLength > 0
    ensures Ipv4Layers(frame, o, h) == Ipv4Layers(frame[o..], 0, h)
  {
    TransportLocal(frame, o, h.headerLength, h.protocol, h.totalLength);
    TrailingLocal(frame, o, h.totalLength);
  }

  lemma Ipv6BodyLocal(frame: seq<Byte>, o: nat, h: Ipv6Header)
    requires o <= |frame|
    ensures Ipv6Layers(frame, o, h) == Ipv6Layers(frame[o..], 0, h)
  {
    TransportLocal(frame, o, 40, h.nextHeader, 40 + h.payloadLength);
    TrailingLocal(frame, o, 40 + h.payloadLength);
  }

  /** A declared length of zero stands for what was captured, so the length is never zero. */
  lemma LengthIsPositive(frame: seq<Byte>, o: nat)
    ensures DecodeIpv4(frame, o).Some? ==> DecodeIpv4(frame, o).value.totalLength > 0
  {
  }

  lemma ArpLayersLocal(frame: seq<Byte>, o: nat, etherType: nat)
    requires o <= |frame| && (etherType == ARP || etherType == RARP)
    ensures NetworkLayers(frame, o, etherType) == NetworkLayers(frame[o..], 0, etherType)
  {
    DecodeArpLocal(frame, o);
    TrailingLocal(frame, o, 28);
  }

  /** The network layer and all beneath it are read from the bytes after the offset alone. */
  lemma LayersAreLocal(frame: seq<Byte>, o: nat, etherType: nat)
    requires o <= |frame|
    ensures NetworkLayers(frame, o, etherType) == NetworkLayers(frame[o..], 0, etherType)
  {
    if etherType == IPV4 {
      DecodeIpv4Local(frame, o);
      LengthIsPositive(frame, o);
      if DecodeIpv4(frame, o).Some? { Ipv4BodyLocal(frame, o, DecodeIpv4(frame, o).value); }
    } else if etherType == IPV6 {
      DecodeIpv6Local(frame, o);
      if DecodeIpv6(frame, o).Some? { Ipv6BodyLocal(frame, o, DecodeIpv6(frame, o).value); }
    } else if etherType == ARP || etherType == RARP {
      ArpLayersLocal(frame, o, etherType);
    }
  }

  // ---------- inserting tags ----------

  /** An 802.1Q or 802.1ad tag: its own EtherType, and the priority and VLAN it carries. */
  datatype Tag = Tag(provider: bool, control: nat)

  function TagType(t: Tag): nat { if t.provider then 0x88a8 else 0x8100 }

  function TagBytes(tags: seq<Tag>): (bytes: seq<Byte>)
    ensures |bytes| == 4 * |tags|
  {
    if tags == [] then [] else U16(TagType(tags[0])) + U16(tags[0].control) + TagBytes(tags[1..])
  }

  /** The tags go between the addresses and the frame's own EtherType. */
  function Tagged(frame: seq<Byte>, tags: seq<Tag>): seq<Byte>
    requires |frame| >= 14
  {
    frame[..12] + TagBytes(tags) + frame[12..]
  }

  ghost predicate WellFormedTags(tags: seq<Tag>) { forall i :: 0 <= i < |tags| ==> tags[i].control < 0x1_0000 }

  /** The EtherType a reader meets first. */
  function LeadingType(tags: seq<Tag>, own: nat): nat { if tags == [] then own else TagType(tags[0]) }

  lemma U16Reads(v: nat, after: seq<Byte>)
    requires v < 0x1_0000
    ensures ReadU16(U16(v) + after, 0) == v
  {
    assert v / 0x100 % 0x100 == v / 0x100;
  }

  /** What stands from each tag on: its type, its control word, and the rest. */
  lemma TailOfTags(tags: seq<Tag>, own: nat, body: seq<Byte>, rest: seq<Byte>)
    requires WellFormedTags(tags) && own < 0x1_0000 && rest == TagBytes(tags) + (U16(own) + body)
    ensures |rest| >= 2 && ReadU16(rest, 0) == LeadingType(tags, own)
    ensures tags != [] ==> |rest| >= 6 && ReadU16(rest, 2) == tags[0].control
    ensures tags != [] ==> rest[4..] == TagBytes(tags[1..]) + (U16(own) + body)
  {
    if tags == [] {
      assert rest == U16(own) + body;
      U16Reads(own, body);
    } else {
      var tail := TagBytes(tags[1..]) + (U16(own) + body);
      assert rest == U16(TagType(tags[0])) + (U16(tags[0].control) + tail);
      U16Reads(TagType(tags[0]), U16(tags[0].control) + tail);
      assert rest[2..] == U16(tags[0].control) + tail;
      U16Reads(tags[0].control, tail);
      U16Shift(rest, 2, 0);
      assert rest[4..] == tail;
    }
  }

  /** Unwrapping takes the tags off one by one, as long as the guard lasts. */
  lemma {:induction false} UnwrapTags(frame: seq<Byte>, at: nat, tags: seq<Tag>, own: nat, body: seq<Byte>, guard: nat)
    requires WellFormedTags(tags) && own < 0x1_0000 && !IsTag(own)
    requires at + 2 <= |frame| && frame[at..] == TagBytes(tags) + (U16(own) + body)
    ensures Unwrap(frame, at + 2, LeadingType(tags, own), guard) ==
            if |tags| <= guard then Inner(at + 2 + 4 * |tags|, own)
            else Inner(at + 2 + 4 * guard, TagType(tags[guard]))
    decreases guard
  {
    var rest := frame[at..];
    TailOfTags(tags, own, body, rest);
    if tags != [] && guard > 0 {
      TailOfTags(tags[1..], own, body, rest[4..]);
      assert frame[at + 4..] == rest[4..];
      U16Shift(frame, at + 4, 0);
      UnwrapTags(frame, at + 4, tags[1..], own, body, guard - 1);
    }
  }

  lemma TaggedTail(frame: seq<Byte>, tags: seq<Tag>)
    requires |frame| >= ETHERNET_HEADER_LENGTH
    ensures Tagged(frame, tags)[12..] == TagBytes(tags) + (U16(ReadU16(frame, 12)) + frame[14..])
    ensures |Tagged(frame, tags)| == |frame| + 4 * |tags|
    ensures Tagged(frame, tags)[14 + 4 * |tags|..] == frame[14..]
  {
    var own := ReadU16(frame, 12);
    assert own / 0x100 == frame[12] && own % 0x100 == frame[13];
    assert frame[12..] == U16(own) + frame[14..];
  }

  // ---------- main results ----------

  lemma EthernetLayers(frame: seq<Byte>)
    requires |frame| >= ETHERNET_HEADER_LENGTH && ReadU16(frame, 12) > MAX_LENGTH_FIELD
    ensures DecodeEthernet(frame).layers == LayersAfter(frame, Unwrap(frame, 14, ReadU16(frame, 12), MAX_TAGS))
    ensures DecodeEthernet(frame).llc == None
  {
  }

  /** How far the tag loop gets in a tagged frame. */
  lemma UnwrapTagged(frame: seq<Byte>, tags: seq<Tag>, tagged: seq<Byte>)
    requires |frame| >= ETHERNET_HEADER_LENGTH && WellFormedTags(tags) && tagged == Tagged(frame, tags)
    requires !IsTag(ReadU16(frame, 12))
    ensures |tagged| == |frame| + 4 * |tags|
    ensures ReadU16(tagged, 12) == LeadingType(tags, ReadU16(frame, 12))
    ensures Unwrap(tagged, 14, ReadU16(tagged, 12), MAX_TAGS) ==
            if |tags| <= MAX_TAGS then Inner(14 + 4 * |tags|, ReadU16(frame, 12))
            else Inner(14 + 4 * MAX_TAGS, TagType(tags[MAX_TAGS]))
    ensures tagged[14 + 4 * |tags|..] == frame[14..]
  {
    var own := ReadU16(frame, 12);
    TaggedTail(frame, tags);
    TailOfTags(tags, own, frame[14..], tagged[12..]);
    U16Shift(tagged, 12, 0);
    UnwrapTags(tagged, 12, tags, own, frame[14..], MAX_TAGS);
  }

  lemma SameLayers(frame: seq<Byte>, tagged: seq<Byte>, o: nat, own: nat)
    requires |frame| >= 14 && o <= |tagged| && tagged[o..] == frame[14..]
    ensures NetworkLayers(tagged, o, own) == NetworkLayers(frame, 14, own)
  {
    LayersAreLocal(tagged, o, own);
    LayersAreLocal(frame, 14, own);
  }

  lemma TagsHaveNoLayers(frame: seq<Byte>, o: nat, t: Tag)
    ensures NetworkLayers(frame, o, TagType(t)) == NO_LAYERS
  {
  }

  /** The layers of a tagged frame, for a frame whose own EtherType is neither a length nor a tag. */
  lemma LayersOfTagged(frame: seq<Byte>, tags: seq<Tag>, tagged: seq<Byte>)
    requires |frame| >= ETHERNET_HEADER_LENGTH && WellFormedTags(tags) && tagged == Tagged(frame, tags)
    requires ReadU16(frame, 12) > MAX_LENGTH_FIELD && !IsTag(ReadU16(frame, 12))
    ensures DecodeEthernet(tagged).layers ==
            if |tags| <= MAX_TAGS then NetworkLayers(frame, 14, ReadU16(frame, 12)) else NO_LAYERS
  {
    UnwrapTagged(frame, tags, tagged);
    EthernetLayers(tagged);
    if |tags| <= MAX_TAGS {
      SameLayers(frame, tagged, 14 + 4 * |tags|, ReadU16(frame, 12));
    } else {
      TagsHaveNoLayers(tagged, 14 + 4 * MAX_TAGS, tags[MAX_TAGS]);
    }
  }

  /** VLAN transparency: up to four tags change nothing beneath the link layer, truncated frames
      and zero declared lengths included; from the fifth on, nothing beneath it is decoded. */
  lemma TagsAreTransparent(frame: seq<Byte>, tags: seq<Tag>)
    requires |frame| >= 14 && WellFormedTags(tags)
    requires ReadU16(frame, 12) > 0x05dc && ReadU16(frame, 12) != 0x8100 && ReadU16(frame, 12) != 0x88a8
    ensures DecodeEthernet(Tagged(frame, tags)).layers ==
            if |tags| <= 4 then DecodeEthernet(frame).layers
            else Layers(None, None, None, Transport(None, None, None), [])
  {
    assert Tagged(frame, []) == frame;
    LayersOfTagged(frame, tags, Tagged(frame, tags));
    LayersOfTagged(frame, [], frame);
  }

  /** What is shown of the tags is the outermost one. */
  lemma OutermostTagIsShown(frame: seq<Byte>, tags: seq<Tag>)
    requires |frame| >= 14 && WellFormedTags(tags) && tags != []
    ensures var t := tags[0];
            DecodeEthernet(Tagged(frame, tags)).vlan ==
            Some(VlanHeader(t.control / 0x2000, t.control / 0x1000 % 2, t.control % 0x1000,
                            LeadingType(tags[1..], ReadU16(frame, 12))))
  {
    var own, tagged := ReadU16(frame, 12), Tagged(frame, tags);
    TaggedTail(frame, tags);
    TailOfTags(tags, own, frame[14..], tagged[12..]);
    TailOfTags(tags[1..], own, frame[14..], tagged[12..][4..]);
    assert tagged[12..][4..] == tagged[16..];
    U16Shift(tagged, 12, 0);
    U16Shift(tagged, 12, 2);
    U16Shift(tagged, 16, 0);
  }

  lemma TaggedLengthHidesAll(frame: seq<Byte>, tags: seq<Tag>)
    requires |frame| >= 14 && WellFormedTags(tags) && 1 <= |tags|
    requires ReadU16(frame, 12) <= 0x05dc
    ensures DecodeEthernet(Tagged(frame, tags)).layers == NO_LAYERS
    ensures DecodeEthernet(Tagged(frame, tags)).llc == None
  {
    var tagged := Tagged(frame, tags);
    UnwrapTagged(frame, tags, tagged);
    EthernetLayers(tagged);
    if |tags| > MAX_TAGS {
      TagsHaveNoLayers(tagged, 14 + 4 * MAX_TAGS, tags[MAX_TAGS]);
    }
  }

  /** A frame that carries a length instead of an EtherType is transparent if and only if it is too
      short to hold an LLC header: tagged, its length is looked up as an EtherType, and the header
      with all beneath it is lost. */
  lemma TaggedLlcIsOpaque(frame: seq<Byte>, tags: seq<Tag>)
    requires |frame| >= 14 && WellFormedTags(tags) && 1 <= |tags|
    requires ReadU16(frame, 12) <= 0x05dc
    ensures var plain, tagged := DecodeEthernet(frame), DecodeEthernet(Tagged(frame, tags));
            tagged.llc == None && tagged.layers == Layers(None, None, None, Transport(None, None, None), []) &&
            ((tagged.llc == plain.llc && tagged.layers == plain.layers) <==>
             |frame| < 17 || (|frame| == 17 && frame[16] % 4 != 3))
  {
    TaggedLengthHidesAll(frame, tags);
  }
}
