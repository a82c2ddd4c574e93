/** Frames built from given headers: what the decoder must find in them, byte for byte. */
module PacketWire {
  import opened Options
  import opened Radix
  import opened Bytes
  import opened Text
  import opened Addresses
  import opened PacketDecode
  import opened Vlan

  // ---------- headers on the wire ----------

  function Hi(v: nat): Byte { v / 0x100 % 0x100 }
  function Lo(v: nat): Byte { v % 0x100 }
  function Bit(b: bool): nat { if b then 1 else 0 }

  /** Sixteen bits at a time, the most significant byte first. */
  predicate IsWord(v: nat) { v < 0x1_0000 }
  predicate IsLong(v: nat) { v < 0x1_0000_0000 }

  function DottedQuad(a: seq<Byte>): string
    requires |a| == 4
  {
    Join([Dec(a[0]), Dec(a[1]), Dec(a[2]), Dec(a[3])], ".")
  }

  /** The twenty fixed bytes of an IPv4 header (section 3.1 of RFC 791). */
  function Ipv4Bytes(h: Ipv4Header, src: seq<Byte>, dst: seq<Byte>): (s: seq<Byte>)
    requires |src| == 4 && |dst| == 4 && Ipv4Writable(h, src, dst)
    ensures |s| == 20
  {
    var flags := Bit(h.reserved) * 0x8000 + Bit(h.dontFragment) * 0x4000 + Bit(h.moreFragment) * 0x2000;
    var fragment := flags + h.fragmentOffset / 8;
    [0x40 + h.headerLength / 4, h.tos, Hi(h.totalLength), Lo(h.totalLength),
     Hi(h.identification), Lo(h.identification), Hi(fragment), Lo(fragment),
     h.ttl, h.protocol, Hi(h.headerChecksum), Lo(h.headerChecksum)] + src + dst
  }

  predicate Ipv4Writable(h: Ipv4Header, src: seq<Byte>, dst: seq<Byte>)
    requires |src| == 4 && |dst| == 4
  {
    h.version == 4 && 20 <= h.headerLength <= 60 && h.headerLength % 4 == 0 && h.tos < 256 &&
    IsWord(h.totalLength) && IsWord(h.identification) && h.fragmentOffset < 0x1_0000 && h.fragmentOffset % 8 == 0 &&
    h.ttl < 256 && h.protocol < 256 && IsWord(h.headerChecksum) &&
    h.srcAddr == DottedQuad(src) && h.dstAddr == DottedQuad(dst)
  }

  /** The forty bytes of an IPv6 header (section 3 of RFC 8200). */
  function Ipv6Bytes(h: Ipv6Header, src: seq<Byte>, dst: seq<Byte>): (s: seq<Byte>)
    requires |src| == 16 && |dst| == 16 && Ipv6Writable(h, src, dst)
    ensures |s| == 40
  {
    [0x60 + h.trafficClass / 16, h.trafficClass % 16 * 16 + h.flowLabel / 0x1_0000,
     Hi(h.flowLabel % 0x1_0000), Lo(h.flowLabel % 0x1_0000), Hi(h.payloadLength), Lo(h.payloadLength),
     h.nextHeader, h.hopLimit] + src + dst
  }

  predicate Ipv6Writable(h: Ipv6Header, src: seq<Byte>, dst: seq<Byte>)
    requires |src| == 16 && |dst| == 16
  {
    h.version == 6 && h.trafficClass < 256 && h.flowLabel < 0x10_0000 && IsWord(h.payloadLength) &&
    h.nextHeader < 256 && h.hopLimit < 256 &&
    h.srcAddr == CompressedText(Groups(src, 0)) && h.dstAddr == CompressedText(Groups(dst, 0))
  }

  /** A request or reply for IPv4 over Ethernet (RFC 826). */
  function ArpBytes(h: ArpHeader, srcMac: seq<Byte>, src: seq<Byte>, dstMac: seq<Byte>, dst: seq<Byte>): (s: seq<Byte>)
    requires |srcMac| == 6 && |src| == 4 && |dstMac| == 6 && |dst| == 4
    requires IsWord(h.hardwareType) && IsWord(h.protocolType) && IsWord(h.operation)
    ensures |s| == 28
  {
    [Hi(h.hardwareType), Lo(h.hardwareType), Hi(h.protocolType), Lo(h.protocolType), 6, 4,
     Hi(h.operation), Lo(h.operation)] + srcMac + src + dstMac + dst
  }

  /** The twenty fixed bytes of a TCP header (section 3.1 of RFC 9293); four bits are reserved, and the
      two congestion flags are not decoded. */
  function TcpBytes(h: TcpHeader, reserved: nat, congestion: nat): (s: seq<Byte>)
    requires TcpWritable(h) && reserved < 16 && congestion < 4
    ensures |s| == 20
  {
    var number, acknowledged := h.sequenceNumber, h.acknowledgmentNumber;
    [Hi(h.srcPort), Lo(h.srcPort), Hi(h.dstPort), Lo(h.dstPort),
     Hi(number / 0x1_0000), Lo(number / 0x1_0000), Hi(number % 0x1_0000), Lo(number % 0x1_0000),
     Hi(acknowledged / 0x1_0000), Lo(acknowledged / 0x1_0000), Hi(acknowledged % 0x1_0000), Lo(acknowledged % 0x1_0000),
     h.dataOffset / 4 * 16 + reserved, FlagByte(congestion, h),
     Hi(h.window), Lo(h.window), Hi(h.checksum), Lo(h.checksum), Hi(h.urgentPointer), Lo(h.urgentPointer)]
  }

  function FlagByte(congestion: nat, h: TcpHeader): nat
  {
    congestion * 0x40 + Bit(h.urg) * 0x20 + Bit(h.ack) * 0x10 + Bit(h.psh) * 0x08 + Bit(h.rst) * 0x04 +
    Bit(h.syn) * 0x02 + Bit(h.fin)
  }

  predicate TcpWritable(h: TcpHeader)
  {
    IsWord(h.srcPort) && IsWord(h.dstPort) && IsLong(h.sequenceNumber) && IsLong(h.acknowledgmentNumber) &&
    h.dataOffset <= 60 && h.dataOffset % 4 == 0 && IsWord(h.window) && IsWord(h.checksum) && IsWord(h.urgentPointer)
  }

  /** The eight bytes of a UDP header (RFC 768). */
  function UdpBytes(h: UdpHeader): (s: seq<Byte>)
    requires UdpWritable(h)
    ensures |s| == 8
  {
    [Hi(h.srcPort), Lo(h.srcPort), Hi(h.dstPort), Lo(h.dstPort),
     Hi(h.length), Lo(h.length), Hi(h.checksum), Lo(h.checksum)]
  }

  predicate UdpWritable(h: UdpHeader)
  {
    IsWord(h.srcPort) && IsWord(h.dstPort) && IsWord(h.length) && IsWord(h.checksum)
  }

  // ---------- each header reads back ----------

  lemma WordReads(s: seq<Byte>, i: nat, v: nat)
    requires i + 2 <= |s| && IsWord(v) && s[i] == Hi(v) && s[i + 1] == Lo(v)
    ensures ReadU16(s, i) == v
  {
  }

  lemma LongReads(s: seq<Byte>, i: nat, v: nat)
    requires i + 4 <= |s| && IsLong(v)
    requires s[i] == Hi(v / 0x1_0000) && s[i + 1] == Lo(v / 0x1_0000)
    requires s[i + 2] == Hi(v % 0x1_0000) && s[i + 3] == Lo(v % 0x1_0000)
    ensures ReadU32(s, i) == v
  {
    WordReads(s, i, v / 0x1_0000);
    WordReads(s, i + 2, v % 0x1_0000);
  }

  lemma QuadReads(s: seq<Byte>, i: nat, a: seq<Byte>)
    requires i + 4 <= |s| && |a| == 4 && s[i..i + 4] == a
    ensures ReadIpv4(s, i) == DottedQuad(a)
  {
    var read := seq(4, k requires 0 <= k < 4 => Dec(ByteAt(s, i + k)));
    forall k | 0 <= k < 4 ensures read[k] == Dec(a[k]) {
      assert a[k] == s[i..i + 4][k] == s[i + k] == ByteAt(s, i + k);
    }
    assert read == [Dec(a[0]), Dec(a[1]), Dec(a[2]), Dec(a[3])];
  }

  lemma MacReads(s: seq<Byte>, i: nat, a: seq<Byte>)
    requires i + 6 <= |s| && |a| == 6 && s[i..i + 6] == a
    ensures ReadMac(s, i) == ReadMac(a, 0)
  {
    var read := seq(6, k requires 0 <= k < 6 => Render(Digits(16, ByteAt(s, i + k), 2)));
    var given := seq(6, k requires 0 <= k < 6 => Render(Digits(16, ByteAt(a, 0 + k), 2)));
    forall k | 0 <= k < 6 ensures read[k] == given[k] {
      assert ByteAt(a, k) == a[k] == s[i..i + 6][k] == s[i + k] == ByteAt(s, i + k);
    }
    assert read == given;
  }

  lemma GroupsRead(s: seq<Byte>, i: nat, a: seq<Byte>)
    requires i + 16 <= |s| && |a| == 16 && s[i..i + 16] == a
    ensures ReadIpv6(s, i) == CompressedText(Groups(a, 0))
  {
    assert s[i..i + 16] == a[0..16];
    GroupsAreLocal(s, i, a, 0);
  }

  /** The flags and the offset share a word. */
  lemma FragmentWord(reserved: bool, dontFragment: bool, moreFragment: bool, units: nat)
    requires units < 0x2000
    ensures var v := Bit(reserved) * 0x8000 + Bit(dontFragment) * 0x4000 + Bit(moreFragment) * 0x2000 + units;
            IsWord(v) && BitSet(v, 0x8000) == reserved && BitSet(v, 0x4000) == dontFragment &&
            BitSet(v, 0x2000) == moreFragment && v % 0x2000 == units
  {
  }

  lemma BitAt(high: nat, b: bool, low: nat, weight: nat)
    requires weight >= 1 && low < weight
    ensures BitSet((high * 2 + Bit(b)) * weight + low, weight) == b
  {
    DivModUnique(high * 2 + Bit(b), weight, low);
  }

  lemma UpperFlags(c: nat, h: TcpHeader)
    ensures var v := FlagByte(c, h);
            BitSet(v, 0x20) == h.urg && BitSet(v, 0x10) == h.ack && BitSet(v, 0x08) == h.psh
  {
    var low := Bit(h.rst) * 0x04 + Bit(h.syn) * 0x02 + Bit(h.fin);
    BitAt(c, h.urg, Bit(h.ack) * 0x10 + Bit(h.psh) * 0x08 + low, 0x20);
    BitAt(c * 2 + Bit(h.urg), h.ack, Bit(h.psh) * 0x08 + low, 0x10);
    BitAt(c * 4 + Bit(h.urg) * 2 + Bit(h.ack), h.psh, low, 0x08);
  }

  lemma LowBits(high: nat, rst: bool, syn: bool, fin: bool)
    ensures var v := high * 8 + Bit(rst) * 0x04 + Bit(syn) * 0x02 + Bit(fin);
            BitSet(v, 0x04) == rst && BitSet(v, 0x02) == syn && BitSet(v, 0x01) == fin
  {
    BitAt(high, rst, Bit(syn) * 0x02 + Bit(fin), 0x04);
    BitAt(high * 2 + Bit(rst), syn, Bit(fin), 0x02);
    BitAt(high * 4 + Bit(rst) * 2 + Bit(syn), fin, 0, 0x01);
  }

  lemma LowerFlags(c: nat, h: TcpHeader)
    ensures var v := FlagByte(c, h);
            BitSet(v, 0x04) == h.rst && BitSet(v, 0x02) == h.syn && BitSet(v, 0x01) == h.fin
  {
    LowBits(c * 8 + Bit(h.urg) * 4 + Bit(h.ack) * 2 + Bit(h.psh), h.rst, h.syn, h.fin);
  }

  lemma Ipv4Words(s: seq<Byte>, h: Ipv4Header, src: seq<Byte>, dst: seq<Byte>, fragment: nat)
    requires |src| == 4 && |dst| == 4 && Ipv4Writable(h, src, dst) && Ipv4Bytes(h, src, dst) <= s
    requires fragment == Bit(h.reserved) * 0x8000 + Bit(h.dontFragment) * 0x4000 + Bit(h.moreFragment) * 0x2000 +
                         h.fragmentOffset / 8
    ensures ReadU16(s, 2) == h.totalLength && ReadU16(s, 4) == h.identification && ReadU16(s, 6) == fragment
    ensures ReadU16(s, 10) == h.headerChecksum && ReadIpv4(s, 12) == h.srcAddr && ReadIpv4(s, 16) == h.dstAddr
  {
    var b := Ipv4Bytes(h, src, dst);
    assert s[..20] == b;
    WordReads(s, 2, h.totalLength);
    WordReads(s, 4, h.identification);
    WordReads(s, 6, fragment);
    WordReads(s, 10, h.headerChecksum);
    assert s[12..16] == b[12..16] == src && s[16..20] == b[16..20] == dst;
    QuadReads(s, 12, src);
    QuadReads(s, 16, dst);
  }

  /** A zero total length stands for everything captured. */
  lemma Ipv4ReadsBack(s: seq<Byte>, h: Ipv4Header, src: seq<Byte>, dst: seq<Byte>)
    requires |src| == 4 && |dst| == 4 && Ipv4Writable(h, src, dst) && Ipv4Bytes(h, src, dst) <= s
    ensures DecodeIpv4(s, 0) == Some(h.(totalLength := if h.totalLength == 0 then |s| else h.totalLength))
  {
    var flags := Bit(h.reserved) * 0x8000 + Bit(h.dontFragment) * 0x4000 + Bit(h.moreFragment) * 0x2000;
    Ipv4Words(s, h, src, dst, flags + h.fragmentOffset / 8);
    FragmentWord(h.reserved, h.dontFragment, h.moreFragment, h.fragmentOffset / 8);
    var b := Ipv4Bytes(h, src, dst);
    assert s[0] == b[0] && s[1] == b[1] && s[8] == b[8] && s[9] == b[9];
  }

  lemma FirstWord(s: seq<Byte>, trafficClass: nat, flowLabel: nat)
    requires |s| >= 4 && trafficClass < 256 && flowLabel < 0x10_0000
    requires s[0] == 0x60 + trafficClass / 16 && s[1] == trafficClass % 16 * 16 + flowLabel / 0x1_0000
    requires s[2] == Hi(flowLabel % 0x1_0000) && s[3] == Lo(flowLabel % 0x1_0000)
    ensures ReadU32(s, 0) == 0x6000_0000 + trafficClass * 0x10_0000 + flowLabel
  {
    WordReads(s, 2, flowLabel % 0x1_0000);
    FirstHalf(s[0], s[1], trafficClass, flowLabel / 0x1_0000);
  }

  lemma FirstHalf(first: nat, second: nat, trafficClass: nat, top: nat)
    requires first == 0x60 + trafficClass / 16 && second == trafficClass % 16 * 16 + top
    ensures first * 0x100 + second == 0x6000 + trafficClass * 16 + top
  {
  }

  lemma FirstWordParts(trafficClass: nat, flowLabel: nat)
    requires trafficClass < 256 && flowLabel < 0x10_0000
    ensures var v := 0x6000_0000 + trafficClass * 0x10_0000 + flowLabel;
            v / 0x1000_0000 == 6 && v / 0x10_0000 % 0x100 == trafficClass && v % 0x10_0000 == flowLabel
  {
    var v := 0x6000_0000 + trafficClass * 0x10_0000 + flowLabel;
    assert v == (0x600 + trafficClass) * 0x10_0000 + flowLabel;
  }

  lemma Ipv6Ends(s: seq<Byte>, b: seq<Byte>, src: seq<Byte>, dst: seq<Byte>)
    requires |src| == 16 && |dst| == 16 && |b| == 40 && b <= s && b[8..] == src + dst
    ensures ReadIpv6(s, 8) == CompressedText(Groups(src, 0)) && ReadIpv6(s, 24) == CompressedText(Groups(dst, 0))
  {
    assert b[8..24] == b[8..][..16] == src && b[24..40] == b[8..][16..] == dst;
    assert s[8..24] == b[8..24] && s[24..40] == b[24..40];
    GroupsRead(s, 8, src);
    GroupsRead(s, 24, dst);
  }

  lemma Ipv6Fields(s: seq<Byte>, h: Ipv6Header, src: seq<Byte>, dst: seq<Byte>)
    requires |src| == 16 && |dst| == 16 && Ipv6Writable(h, src, dst) && Ipv6Bytes(h, src, dst) <= s
    ensures ReadU32(s, 0) == 0x6000_0000 + h.trafficClass * 0x10_0000 + h.flowLabel
    ensures ReadU16(s, 4) == h.payloadLength && s[6] == h.nextHeader && s[7] == h.hopLimit
    ensures ReadIpv6(s, 8) == h.srcAddr && ReadIpv6(s, 24) == h.dstAddr
  {
    var b := Ipv6Bytes(h, src, dst);
    assert s[..40] == b;
    FirstWord(s, h.trafficClass, h.flowLabel);
    WordReads(s, 4, h.payloadLength);
    Ipv6Ends(s, b, src, dst);
  }

  /** A zero payload length stands for everything captured behind the header. */
  lemma Ipv6ReadsBack(s: seq<Byte>, h: Ipv6Header, src: seq<Byte>, dst: seq<Byte>)
    requires |src| == 16 && |dst| == 16 && Ipv6Writable(h, src, dst) && Ipv6Bytes(h, src, dst) <= s
    ensures DecodeIpv6(s, 0) == Some(h.(payloadLength := if h.payloadLength == 0 then |s| - 40 else h.payloadLength))
  {
    Ipv6Fields(s, h, src, dst);
    FirstWordParts(h.trafficClass, h.flowLabel);
  }

  lemma ArpReadsBack(s: seq<Byte>, h: ArpHeader, srcMac: seq<Byte>, src: seq<Byte>, dstMac: seq<Byte>, dst: seq<Byte>)
    requires |srcMac| == 6 && |src| == 4 && |dstMac| == 6 && |dst| == 4
    requires IsWord(h.hardwareType) && IsWord(h.protocolType) && IsWord(h.operation)
    requires h.srcHardwareAddr == ReadMac(srcMac, 0) && h.srcProtocolAddr == DottedQuad(src)
    requires h.dstHardwareAddr == ReadMac(dstMac, 0) && h.dstProtocolAddr == DottedQuad(dst)
    requires ArpBytes(h, srcMac, src, dstMac, dst) <= s
    ensures DecodeArp(s, 0) == Some(h)
  {
    var b := ArpBytes(h, srcMac, src, dstMac, dst);
    assert s[..28] == b;
    WordReads(s, 0, h.hardwareType);
    WordReads(s, 2, h.protocolType);
    WordReads(s, 6, h.operation);
    assert s[8..14] == b[8..14] == srcMac && s[14..18] == b[14..18] == src;
    assert s[18..24] == b[18..24] == dstMac && s[24..28] == b[24..28] == dst;
    MacReads(s, 8, srcMac);
    QuadReads(s, 14, src);
    MacReads(s, 18, dstMac);
    QuadReads(s, 24, dst);
  }

  lemma DataOffsetReads(dataOffset: nat, reserved: nat)
    requires dataOffset % 4 == 0 && reserved < 16
    ensures (dataOffset / 4 * 16 + reserved) / 16 * 4 == dataOffset
  {
  }

  lemma TcpWords(s: seq<Byte>, h: TcpHeader, reserved: nat, congestion: nat)
    requires TcpWritable(h) && reserved < 16 && congestion < 4 && TcpBytes(h, reserved, congestion) <= s
    ensures ReadU16(s, 0) == h.srcPort && ReadU16(s, 2) == h.dstPort
    ensures ReadU32(s, 4) == h.sequenceNumber && ReadU32(s, 8) == h.acknowledgmentNumber
    ensures ReadU16(s, 14) == h.window && ReadU16(s, 16) == h.checksum && ReadU16(s, 18) == h.urgentPointer
  {
    assert s[..20] == TcpBytes(h, reserved, congestion);
    WordReads(s, 0, h.srcPort);
    WordReads(s, 2, h.dstPort);
    LongReads(s, 4, h.sequenceNumber);
    LongReads(s, 8, h.acknowledgmentNumber);
    WordReads(s, 14, h.window);
    WordReads(s, 16, h.checksum);
    WordReads(s, 18, h.urgentPointer);
  }

  lemma TcpReadsBack(s: seq<Byte>, h: TcpHeader, reserved: nat, congestion: nat)
    requires TcpWritable(h) && reserved < 16 && congestion < 4 && TcpBytes(h, reserved, congestion) <= s
    ensures DecodeTcp(s, 0) == h
  {
    TcpWords(s, h, reserved, congestion);
    var b := TcpBytes(h, reserved, congestion);
    assert s[12] == b[12] && s[13] == b[13];
    DataOffsetReads(h.dataOffset, reserved);
    UpperFlags(congestion, h);
    LowerFlags(congestion, h);
  }

  lemma UdpReadsBack(s: seq<Byte>, h: UdpHeader)
    requires UdpWritable(h) && UdpBytes(h) <= s
    ensures DecodeUdp(s, 0) == h
  {
    assert s[..8] == UdpBytes(h);
    WordReads(s, 0, h.srcPort);
    WordReads(s, 2, h.dstPort);
    WordReads(s, 4, h.length);
    WordReads(s, 6, h.checksum);
  }

  // ---------- the transport layer ----------

  /** What an IP datagram carries: a TCP header with its options, a UDP header, or something not decoded. */
  datatype Segment =
    | TcpSegment(tcp: TcpHeader, reserved: nat, congestion: nat, options: seq<Byte>)
    | UdpSegment(udp: UdpHeader)
    | OtherSegment(protocol: nat)

  predicate SegmentWritable(g: Segment)
  {
    match g
    case TcpSegment(h, reserved, congestion, options) =>
      TcpWritable(h) && reserved < 16 && congestion < 4 &&
      |options| == if h.dataOffset > 20 then h.dataOffset - 20 else 0
    case UdpSegment(h) => UdpWritable(h)
    case OtherSegment(protocol) => protocol != 6 && protocol != 17
  }

  function SegmentProtocol(g: Segment): nat
  {
    match g
    case TcpSegment(_, _, _, _) => 6
    case UdpSegment(_) => 17
    case OtherSegment(protocol) => protocol
  }

  function SegmentBytes(g: Segment): seq<Byte>
    requires SegmentWritable(g)
  {
    match g
    case TcpSegment(h, reserved, congestion, options) => TcpBytes(h, reserved, congestion) + options
    case UdpSegment(h) => UdpBytes(h)
    case OtherSegment(_) => []
  }

  /** The payload under a header of the given size, when the segment is declared to be that long: what was
      captured of it, and everything captured if the declared length leaves no room for a segment. */
  function Carried(data: seq<Byte>, declared: int, header: nat): seq<Byte>
  {
    if declared <= 0 || declared - header >= |data| then data
    else if declared <= header then []
    else data[..declared - header]
  }

  function Carrying(g: Segment, data: seq<Byte>, declared: int): Transport
    requires SegmentWritable(g)
  {
    match g
    case TcpSegment(h, _, _, options) => Transport(Some(h), None, Some(Carried(data, declared, 20 + |options|)))
    case UdpSegment(h) => Transport(None, Some(h), Some(Carried(data, declared, 8)))
    case OtherSegment(_) => Transport(None, None, None)
  }

  lemma PayloadIs(s: seq<Byte>, at: nat, header: nat, data: seq<Byte>, end: nat)
    requires at + header <= |s| && s[at + header..] == data
    ensures Slice(s, at + header, Limit(s, at, end)) == Carried(data, end - at, header)
  {
    var limit := Limit(s, at, end);
    if at + header < limit {
      assert s[at + header..limit] == data[..limit - at - header];
      assert data[..|data|] == data;
    } else if limit == |s| {
      assert data == [];
    }
  }

  lemma TcpFound(s: seq<Byte>, at: nat, g: Segment, data: seq<Byte>)
    requires g.TcpSegment? && SegmentWritable(g) && at <= |s| && s[at..] == SegmentBytes(g) + data
    ensures at + 20 + |g.options| <= |s| && DecodeTcp(s, at) == g.tcp && s[at + (20 + |g.options|)..] == data
  {
    assert TcpBytes(g.tcp, g.reserved, g.congestion) <= s[at..];
    TcpReadsBack(s[at..], g.tcp, g.reserved, g.congestion);
    DecodeTcpLocal(s, at, 0);
    Behind(s, at, SegmentBytes(g), data);
  }

  lemma Behind(s: seq<Byte>, at: nat, front: seq<Byte>, data: seq<Byte>)
    requires at <= |s| && s[at..] == front + data
    ensures at + |front| <= |s| && s[at + |front|..] == data
  {
    assert s[at + |front|..] == s[at..][|front|..];
  }

  lemma TcpTransport(s: seq<Byte>, at: nat, h: TcpHeader, header: nat, data: seq<Byte>, end: nat)
    requires header == (if h.dataOffset > 20 then h.dataOffset else 20) && at + header <= |s|
    requires DecodeTcp(s, at) == h && s[at + header..] == data
    ensures DecodeTransport(s, at, 6, end) == Transport(Some(h), None, Some(Carried(data, end - at, header)))
  {
    PayloadIs(s, at, header, data, end);
  }

  lemma TcpCarries(s: seq<Byte>, at: nat, g: Segment, data: seq<Byte>, end: nat)
    requires g.TcpSegment? && SegmentWritable(g) && at <= |s| && s[at..] == SegmentBytes(g) + data
    ensures DecodeTransport(s, at, 6, end) == Carrying(g, data, end - at)
  {
    TcpFound(s, at, g, data);
    TcpTransport(s, at, g.tcp, 20 + |g.options|, data, end);
  }

  lemma UdpCarries(s: seq<Byte>, at: nat, g: Segment, data: seq<Byte>, end: nat)
    requires g.UdpSegment? && SegmentWritable(g) && at <= |s| && s[at..] == SegmentBytes(g) + data
    ensures DecodeTransport(s, at, 17, end) == Carrying(g, data, end - at)
  {
    assert UdpBytes(g.udp) <= s[at..];
    UdpReadsBack(s[at..], g.udp);
    U16Shift(s, at, 0);
    U16Shift(s, at, 2);
    U16Shift(s, at, 4);
    U16Shift(s, at, 6);
    PayloadIs(s, at, 8, data, end);
  }

  lemma SegmentReadsBack(s: seq<Byte>, at: nat, g: Segment, data: seq<Byte>, end: nat)
    requires SegmentWritable(g) && at <= |s| && s[at..] == SegmentBytes(g) + data
    ensures DecodeTransport(s, at, SegmentProtocol(g), end) == Carrying(g, data, end - at)
  {
    match g {
      case TcpSegment(_, _, _, _) => TcpCarries(s, at, g, data, end);
      case UdpSegment(_) => UdpCarries(s, at, g, data, end);
      case OtherSegment(_) =>
    }
  }

  /** A header that was not captured whole is not decoded, and options that were not leave no payload. */
  lemma CutTransport(s: seq<Byte>, at: nat, protocol: nat, end: nat)
    ensures protocol == 6 && |s| < at + 20 ==> DecodeTransport(s, at, protocol, end) == Transport(None, None, None)
    ensures protocol == 17 && |s| < at + 8 ==> DecodeTransport(s, at, protocol, end) == Transport(None, None, None)
    ensures protocol == 6 && at + 20 <= |s| && |s| <= at + s[at + 12] / 16 * 4 ==>
              DecodeTransport(s, at, protocol, end).payload == Some([])
  {
  }

  // ---------- datagrams ----------

  lemma FoundIpv4(s: seq<Byte>, h: Ipv4Header, src: seq<Byte>, dst: seq<Byte>, length: nat, found: Layers)
    requires |src| == 4 && |dst| == 4 && Ipv4Writable(h, src, dst) && Ipv4Bytes(h, src, dst) <= s
    requires length == if h.totalLength == 0 then |s| else h.totalLength
    requires Ipv4Layers(s, 0, h.(totalLength := length)) == found
    ensures NetworkLayers(s, 0, 0x0800) == found
  {
    Ipv4ReadsBack(s, h, src, dst);
  }

  lemma InsideIpv4(s: seq<Byte>, h: Ipv4Header, g: Segment, data: seq<Byte>)
    requires SegmentWritable(g) && h.protocol == SegmentProtocol(g)
    requires h.totalLength > 0 && h.headerLength <= |s| && s[h.headerLength..] == SegmentBytes(g) + data
    ensures Ipv4Layers(s, 0, h) ==
            Layers(Some(h), None, None, Carrying(g, data, h.totalLength - h.headerLength),
                   if h.totalLength < |s| then s[h.totalLength..] else [])
  {
    SegmentReadsBack(s, h.headerLength, g, data, h.totalLength);
  }

  lemma InsideIpv6(s: seq<Byte>, h: Ipv6Header, g: Segment, data: seq<Byte>)
    requires SegmentWritable(g) && h.nextHeader == SegmentProtocol(g)
    requires 40 <= |s| && s[40..] == SegmentBytes(g) + data
    ensures Ipv6Layers(s, 0, h) ==
            Layers(None, Some(h), None, Carrying(g, data, h.payloadLength),
                   if 40 + h.payloadLength < |s| then s[40 + h.payloadLength..] else [])
  {
    SegmentReadsBack(s, 40, g, data, 40 + h.payloadLength);
  }

  /** An IPv4 datagram, whatever its options: every field, the transport header, the payload within the
      declared length, and what the capture holds behind it. A declared length of zero stands for all
      that was captured. */
  lemma Ipv4Datagram(s: seq<Byte>, h: Ipv4Header, src: seq<Byte>, dst: seq<Byte>,
                     g: Segment, data: seq<Byte>, length: nat, found: Layers)
    requires |src| == 4 && |dst| == 4 && Ipv4Writable(h, src, dst) && Ipv4Bytes(h, src, dst) <= s
    requires SegmentWritable(g) && h.protocol == SegmentProtocol(g)
    requires h.headerLength <= |s| && s[h.headerLength..] == SegmentBytes(g) + data
    requires length == if h.totalLength == 0 then |s| else h.totalLength
    requires found == Layers(Some(h.(totalLength := length)), None, None, Carrying(g, data, length - h.headerLength),
                             if length < |s| then s[length..] else [])
    ensures NetworkLayers(s, 0, 0x0800) == found
  {
    InsideIpv4(s, h.(totalLength := length), g, data);
    FoundIpv4(s, h, src, dst, length, found);
  }

  lemma Ipv6Datagram(s: seq<Byte>, h: Ipv6Header, src: seq<Byte>, dst: seq<Byte>,
                     g: Segment, data: seq<Byte>, length: nat)
    requires |src| == 16 && |dst| == 16 && Ipv6Writable(h, src, dst) && Ipv6Bytes(h, src, dst) <= s
    requires SegmentWritable(g) && h.nextHeader == SegmentProtocol(g) && s[40..] == SegmentBytes(g) + data
    requires length == if h.payloadLength == 0 then |s| - 40 else h.payloadLength
    ensures NetworkLayers(s, 0, 0x86dd) ==
            Layers(None, Some(h.(payloadLength := length)), None, Carrying(g, data, length),
                   if 40 + length < |s| then s[40 + length..] else [])
  {
    Ipv6ReadsBack(s, h, src, dst);
    InsideIpv6(s, h.(payloadLength := length), g, data);
  }

  lemma ArpDatagram(s: seq<Byte>, etherType: nat, h: ArpHeader, srcMac: seq<Byte>, src: seq<Byte>,
                    dstMac: seq<Byte>, dst: seq<Byte>)
    requires etherType == 0x0806 || etherType == 0x8035
    requires |srcMac| == 6 && |src| == 4 && |dstMac| == 6 && |dst| == 4
    requires IsWord(h.hardwareType) && IsWord(h.protocolType) && IsWord(h.operation)
    requires h.srcHardwareAddr == ReadMac(srcMac, 0) && h.srcProtocolAddr == DottedQuad(src)
    requires h.dstHardwareAddr == ReadMac(dstMac, 0) && h.dstProtocolAddr == DottedQuad(dst)
    requires ArpBytes(h, srcMac, src, dstMac, dst) <= s
    ensures NetworkLayers(s, 0, etherType) == Layers(None, None, Some(h), Transport(None, None, None), s[28..])
  {
    ArpReadsBack(s, h, srcMac, src, dstMac, dst);
  }

  /** Nothing else is decoded: another type, a capture shorter than the header, another version, an IPv4
      header declared shorter than twenty bytes, or addresses that are not a MAC and an IPv4 address. */
  lemma NothingDecoded(s: seq<Byte>, etherType: nat)
    ensures NetworkLayers(s, 0, etherType) == Layers(None, None, None, Transport(None, None, None), []) <==>
            match etherType
            case 0x0800 => |s| < 20 || s[0] / 16 != 4 || s[0] % 16 < 5
            case 0x86dd => |s| < 40 || s[0] / 16 != 6
            case 0x0806 => |s| < 28 || s[4] != 6 || s[5] != 4
            case 0x8035 => |s| < 28 || s[4] != 6 || s[5] != 4
            case _ => true
  {
    if etherType == 0x86dd && |s| >= 40 {
      assert ReadU32(s, 0) / 0x1000_0000 == s[0] / 16;
    }
  }

  // ---------- frames ----------

  /** An untagged frame with an EtherType: both addresses, the type, and the layers of what follows. */
  lemma EthernetFrame(frame: seq<Byte>, dst: seq<Byte>, src: seq<Byte>, etherType: nat, body: seq<Byte>)
    requires |dst| == 6 && |src| == 6 && 0x05dc < etherType < 0x1_0000 && etherType != 0x8100 && etherType != 0x88a8
    requires frame == dst + src + U16(etherType) + body
    ensures Decode(frame, Ethernet) ==
            Decoded(Some(EthernetHeader(ReadMac(dst, 0), ReadMac(src, 0), etherType)), None, None,
                    NetworkLayers(body, 0, etherType))
  {
    MacReads(frame, 0, dst);
    MacReads(frame, 6, src);
    ReadU16Written(dst + src, etherType, body);
    assert frame[14..] == body;
    LayersAreLocal(frame, 14, etherType);
  }

  /** A frame with a length instead: the LLC header, and under a SNAP header the layers of its EtherType. */
  lemma SnapLayers(frame: seq<Byte>, body: seq<Byte>)
    requires |frame| >= 14 && frame[14..] == body && |body| >= 8
    ensures ReadU16(frame, 20) == ReadU16(body, 6)
    ensures NetworkLayers(frame, 22, ReadU16(body, 6)) == NetworkLayers(body[8..], 0, ReadU16(body, 6))
  {
    U16Shift(frame, 14, 6);
    assert frame[22..] == body[8..];
    LayersAreLocal(frame, 22, ReadU16(body, 6));
  }

  lemma LlcShown(frame: seq<Byte>, body: seq<Byte>)
    requires |frame| >= 14 && frame[14..] == body
    ensures DecodeLlc(frame, 14) == LlcOf(body)
  {
    if |body| >= 4 { U16Shift(frame, 14, 2); }
  }

  lemma LlcFrame(frame: seq<Byte>, dst: seq<Byte>, src: seq<Byte>, length: nat, body: seq<Byte>)
    requires |dst| == 6 && |src| == 6 && length <= 0x05dc && frame == dst + src + U16(length) + body
    ensures var d := Decode(frame, Ethernet);
            d.ethernet == Some(EthernetHeader(ReadMac(dst, 0), ReadMac(src, 0), length)) && d.llc == LlcOf(body) &&
            (if |body| >= 8 && body[0] == 0xaa && body[1] == 0xaa
             then !IsTag(ReadU16(body, 6)) ==>
                    d.vlan == None && d.layers == NetworkLayers(body[8..], 0, ReadU16(body, 6))
             else d.vlan == None && d.layers == Layers(None, None, None, Transport(None, None, None), []))
  {
    MacReads(frame, 0, dst);
    MacReads(frame, 6, src);
    ReadU16Written(dst + src, length, body);
    assert frame[14..] == body;
    LlcShown(frame, body);
    if |body| >= 8 { SnapLayers(frame, body); }
  }

  /** An LLC header has two access points and a control field, of one byte exactly in an unnumbered frame. */
  function LlcOf(body: seq<Byte>): Option<LlcHeader>
  {
    if |body| >= 3 && body[2] % 4 == 3 then Some(LlcHeader(body[0], body[1], body[2], false))
    else if |body| >= 4 then Some(LlcHeader(body[0], body[1], body[2] as int * 256 + body[3], true))
    else None
  }

  /** Without a link layer the first four bits of the datagram say what it is, whatever the four bytes of
      address family in front of it say. */
  lemma LoopbackFrame(family: seq<Byte>, body: seq<Byte>)
    requires |family| == 4
    ensures Decode(family + body, Null) == Decode(family + body, Loop) == Decode(body, Raw)
    ensures Decode(body, Raw) ==
            Decoded(None, None, None,
                    if |body| > 0 && body[0] / 16 == 4 then NetworkLayers(body, 0, 0x0800)
                    else if |body| > 0 && body[0] / 16 == 6 then NetworkLayers(body, 0, 0x86dd)
                    else Layers(None, None, None, Transport(None, None, None), []))
  {
    var frame := family + body;
    assert frame[4..] == body;
    if |body| > 0 {
      LayersAreLocal(frame, 4, 0x0800);
      LayersAreLocal(frame, 4, 0x86dd);
    }
  }
}
