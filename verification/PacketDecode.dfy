/** Decoding a captured frame: the link header, the VLAN tags around it, and the layers inside. */
module PacketDecode {
  import opened Options
  import opened Bytes
  import opened Addresses

  const ETHERNET_HEADER_LENGTH: nat := 14
  const MAX_LENGTH_FIELD: nat := 0x05dc
  const MAX_TAGS: nat := 4

  const IPV4: nat := 0x0800
  const ARP: nat := 0x0806
  const RARP: nat := 0x8035
  const DOT1Q: nat := 0x8100
  const IPV6: nat := 0x86dd
  const QINQ: nat := 0x88a8

  const TCP: nat := 6
  const UDP: nat := 17

  datatype LinkType = Ethernet | Null | Loop | Raw

  datatype EthernetHeader = EthernetHeader(destination: string, source: string, typeValue: nat)

  /** The control field is one byte in an unnumbered frame and two otherwise. */
  datatype LlcHeader = LlcHeader(dsap: nat, ssap: nat, control: nat, extended: bool)

  datatype VlanHeader = VlanHeader(priority: nat, cfi: nat, vid: nat, typeValue: nat)

  datatype Ipv4Header = Ipv4Header(
    version: nat, headerLength: nat, tos: nat, totalLength: nat, identification: nat,
    reserved: bool, dontFragment: bool, moreFragment: bool, fragmentOffset: nat,
    ttl: nat, protocol: nat, headerChecksum: nat, srcAddr: string, dstAddr: string
  )

  datatype Ipv6Header = Ipv6Header(
    version: nat, trafficClass: nat, flowLabel: nat, payloadLength: nat, nextHeader: nat, hopLimit: nat,
    srcAddr: string, dstAddr: string
  )

  datatype ArpHeader = ArpHeader(
    hardwareType: nat, protocolType: nat, operation: nat,
    srcHardwareAddr: string, srcProtocolAddr: string, dstHardwareAddr: string, dstProtocolAddr: string
  )

  datatype TcpHeader = TcpHeader(
    srcPort: nat, dstPort: nat, sequenceNumber: nat, acknowledgmentNumber: nat, dataOffset: nat,
    urg: bool, ack: bool, psh: bool, rst: bool, syn: bool, fin: bool, window: nat, checksum: nat, urgentPointer: nat
  )

  datatype UdpHeader = UdpHeader(srcPort: nat, dstPort: nat, length: nat, checksum: nat)

  datatype Transport = Transport(tcp: Option<TcpHeader>, udp: Option<UdpHeader>, payload: Option<seq<Byte>>)

  /** Everything found beneath the link layer. */
  datatype Layers = Layers(ipv4: Option<Ipv4Header>, ipv6: Option<Ipv6Header>, arp: Option<ArpHeader>,
                           transport: Transport, pad: seq<Byte>)

  const NO_TRANSPORT: Transport := Transport(None, None, None)
  const NO_LAYERS: Layers := Layers(None, None, None, NO_TRANSPORT, [])

  predicate BitSet(v: nat, weight: nat)
    requires weight >= 1
  {
    v / weight % 2 == 1
  }

  // ---------- the layers ----------

  function TrailingBytes(frame: seq<Byte>, declaredEnd: int): seq<Byte>
  {
    if declaredEnd <= 0 || declaredEnd >= |frame| then [] else frame[declaredEnd..]
  }

  function DecodeIpv4(frame: seq<Byte>, offset: nat): Option<Ipv4Header>
  {
    if offset + 20 > |frame| then None else
    var version, headerLength := frame[offset] / 16, frame[offset] % 16 * 4;
    if version != 4 || headerLength < 20 then None else
    var flags, total := ReadU16(frame, offset + 6), ReadU16(frame, offset + 2);
    Some(Ipv4Header(
      version, headerLength, frame[offset + 1],
      if total == 0 then |frame| - offset else total, // segmentation offload reports zero
      ReadU16(frame, offset + 4),
      BitSet(flags, 0x8000), BitSet(flags, 0x4000), BitSet(flags, 0x2000), flags % 0x2000 * 8,
      frame[offset + 8], frame[offset + 9], ReadU16(frame, offset + 10),
      ReadIpv4(frame, offset + 12), ReadIpv4(frame, offset + 16)))
  }

  function DecodeIpv6(frame: seq<Byte>, offset: nat): Option<Ipv6Header>
  {
    if offset + 40 > |frame| then None else
    var first := ReadU32(frame, offset);
    if first / 0x1000_0000 != 6 then None else
    var declared := ReadU16(frame, offset + 4);
    Some(Ipv6Header(
      first / 0x1000_0000, first / 0x10_0000 % 0x100, first % 0x10_0000,
      if declared == 0 then |frame| - offset - 40 else declared,
      frame[offset + 6], frame[offset + 7],
      ReadIpv6(frame, offset + 8), ReadIpv6(frame, offset + 24)))
  }

  function DecodeArp(frame: seq<Byte>, offset: nat): Option<ArpHeader>
  {
    if offset + 28 > |frame| || frame[offset + 4] != 6 || frame[offset + 5] != 4 then None
    else Some(ArpHeader(
      ReadU16(frame, offset), ReadU16(frame, offset + 2), ReadU16(frame, offset + 6),
      ReadMac(frame, offset + 8), ReadIpv4(frame, offset + 14),
      ReadMac(frame, offset + 18), ReadIpv4(frame, offset + 24)))
  }

  function DecodeTcp(frame: seq<Byte>, offset: nat): TcpHeader
    requires offset + 20 <= |frame|
  {
    var flags := frame[offset + 13];
    TcpHeader(
      ReadU16(frame, offset), ReadU16(frame, offset + 2), ReadU32(frame, offset + 4), ReadU32(frame, offset + 8),
      frame[offset + 12] / 16 * 4,
      BitSet(flags, 0x20), BitSet(flags, 0x10), BitSet(flags, 0x08), BitSet(flags, 0x04), BitSet(flags, 0x02),
      BitSet(flags, 0x01), ReadU16(frame, offset + 14), ReadU16(frame, offset + 16), ReadU16(frame, offset + 18))
  }

  function DecodeUdp(frame: seq<Byte>, offset: nat): UdpHeader
    requires offset + 8 <= |frame|
  {
    UdpHeader(ReadU16(frame, offset), ReadU16(frame, offset + 2),
              ReadU16(frame, offset + 4), ReadU16(frame, offset + 6))
  }

  function Slice(frame: seq<Byte>, from: nat, to: nat): seq<Byte>
    requires to <= |frame|
  {
    if from < to then frame[from..to] else []
  }

  /** Where the transport payload ends: at the declared end when that lies ahead, within the capture. */
  function Limit(frame: seq<Byte>, offset: nat, declaredEnd: int): (limit: nat)
    ensures limit <= |frame|
  {
    if offset < declaredEnd < |frame| then declaredEnd else |frame|
  }

  function AtLeast(floor: nat, v: nat): nat { if v < floor then floor else v }

  function DecodeTransport(frame: seq<Byte>, offset: nat, protocol: nat, declaredEnd: int): Transport
  {
    var limit := Limit(frame, offset, declaredEnd);
    if protocol == TCP then
      if offset + 20 > |frame| then NO_TRANSPORT else
      var tcp := DecodeTcp(frame, offset);
      Transport(Some(tcp), None, Some(Slice(frame, offset + AtLeast(20, tcp.dataOffset), limit)))
    else if protocol == UDP then
      if offset + 8 > |frame| then NO_TRANSPORT
      else Transport(None, Some(DecodeUdp(frame, offset)), Some(Slice(frame, offset + 8, limit)))
    else NO_TRANSPORT
  }

  function Ipv4Layers(frame: seq<Byte>, offset: nat, h: Ipv4Header): Layers
  {
    var declaredEnd := offset + h.totalLength;
    Layers(Some(h), None, None, DecodeTransport(frame, offset + h.headerLength, h.protocol, declaredEnd),
           TrailingBytes(frame, declaredEnd))
  }

  function Ipv6Layers(frame: seq<Byte>, offset: nat, h: Ipv6Header): Layers
  {
    var declaredEnd := offset + 40 + h.payloadLength;
    Layers(None, Some(h), None, DecodeTransport(frame, offset + 40, h.nextHeader, declaredEnd),
           TrailingBytes(frame, declaredEnd))
  }

  function NetworkLayers(frame: seq<Byte>, offset: nat, etherType: nat): Layers
  {
    if etherType == IPV4 then
      match DecodeIpv4(frame, offset)
      case None => NO_LAYERS
      case Some(h) => Ipv4Layers(frame, offset, h)
    else if etherType == IPV6 then
      match DecodeIpv6(frame, offset)
      case None => NO_LAYERS
      case Some(h) => Ipv6Layers(frame, offset, h)
    else if etherType == ARP || etherType == RARP then
      // whatever lies behind the 28 bytes of a request or reply is padding
      match DecodeArp(frame, offset)
      case None => NO_LAYERS
      case Some(h) => Layers(None, None, Some(h), NO_TRANSPORT, TrailingBytes(frame, offset + 28))
    else NO_LAYERS
  }

  // ---------- the link layer ----------

  function DecodeLlc(frame: seq<Byte>, offset: nat): Option<LlcHeader>
  {
    if offset + 3 > |frame| then None
    else if frame[offset + 2] % 4 == 3 then Some(LlcHeader(frame[offset], frame[offset + 1], frame[offset + 2], false))
    else if offset + 4 > |frame| then None
    else Some(LlcHeader(frame[offset], frame[offset + 1], ReadU16(frame, offset + 2), true))
  }

  /** The EtherType under a SNAP header, and where its network layer starts. */
  function DecodeSnap(frame: seq<Byte>, offset: nat): Option<(nat, nat)>
  {
    if offset + 8 > |frame| || frame[offset] != 0xaa || frame[offset + 1] != 0xaa then None
    else Some((ReadU16(frame, offset + 6), offset + 8))
  }

  predicate IsTag(etherType: nat) { etherType == DOT1Q || etherType == QINQ }

  function DecodeTag(frame: seq<Byte>, offset: nat): VlanHeader
    requires offset + 4 <= |frame|
  {
    var tag := ReadU16(frame, offset);
    VlanHeader(tag / 0x2000, tag / 0x1000 % 2, tag % 0x1000, ReadU16(frame, offset + 2))
  }

  /** Whether decoding goes on after the tags, and from where. */
  datatype Unwrapped = Truncated | Inner(offset: nat, etherType: nat)

  /** Takes off at most `guard` tags. */
  function Unwrap(frame: seq<Byte>, offset: nat, etherType: nat, guard: nat): Unwrapped
    decreases guard
  {
    if !IsTag(etherType) || guard == 0 then Inner(offset, etherType)
    else if offset + 4 > |frame| then Truncated
    else Unwrap(frame, offset + 4, ReadU16(frame, offset + 2), guard - 1)
  }

  function OuterTag(frame: seq<Byte>, offset: nat, etherType: nat): Option<VlanHeader>
  {
    if IsTag(etherType) && offset + 4 <= |frame| then Some(DecodeTag(frame, offset)) else None
  }

  datatype Decoded = Decoded(ethernet: Option<EthernetHeader>, llc: Option<LlcHeader>, vlan: Option<VlanHeader>,
                             layers: Layers)

  const NOTHING: Decoded := Decoded(None, None, None, NO_LAYERS)

  function LayersAfter(frame: seq<Byte>, u: Unwrapped): Layers
  {
    match u
    case Truncated => NO_LAYERS
    case Inner(offset, etherType) => NetworkLayers(frame, offset, etherType)
  }

  /** From the first tag, if any, inwards. */
  function DecodeTagged(frame: seq<Byte>, before: Decoded, offset: nat, etherType: nat): Decoded
  {
    before.(vlan := OuterTag(frame, offset, etherType),
            layers := LayersAfter(frame, Unwrap(frame, offset, etherType, MAX_TAGS)))
  }

  function DecodeEthernet(frame: seq<Byte>): Decoded
  {
    if |frame| < ETHERNET_HEADER_LENGTH then NOTHING else
    var typeOrLength := ReadU16(frame, 12);
    var linked := NOTHING.(ethernet := Some(EthernetHeader(ReadMac(frame, 0), ReadMac(frame, 6), typeOrLength)));
    if typeOrLength > MAX_LENGTH_FIELD then DecodeTagged(frame, linked, ETHERNET_HEADER_LENGTH, typeOrLength)
    else
      var llc := linked.(llc := DecodeLlc(frame, ETHERNET_HEADER_LENGTH));
      match DecodeSnap(frame, ETHERNET_HEADER_LENGTH)
      case None => llc
      case Some(snap) => DecodeTagged(frame, llc, snap.1, snap.0)
  }

  /** No link header, or a four-byte address family whose byte order is not to be trusted. */
  function DecodeLoopback(frame: seq<Byte>, ipOffset: nat): Decoded
  {
    if |frame| <= ipOffset then NOTHING
    else if frame[ipOffset] / 16 == 4 then NOTHING.(layers := NetworkLayers(frame, ipOffset, IPV4))
    else if frame[ipOffset] / 16 == 6 then NOTHING.(layers := NetworkLayers(frame, ipOffset, IPV6))
    else NOTHING
  }

  function Decode(frame: seq<Byte>, linkType: LinkType): Decoded
  {
    match linkType
    case Ethernet => DecodeEthernet(frame)
    case Raw => DecodeLoopback(frame, 0)
    case _ => DecodeLoopback(frame, 4)
  }

  // ---------- the class ----------

  /** A packet under construction; each layer fills in its own fields. */
  class DecodedPacket {
    var ethernet: Option<EthernetHeader>
    var llc: Option<LlcHeader>
    var vlan: Option<VlanHeader>
    var ipv4: Option<Ipv4Header>
    var ipv6: Option<Ipv6Header>
    var arp: Option<ArpHeader>
    var tcp: Option<TcpHeader>
    var udp: Option<UdpHeader>
    var payload: Option<seq<Byte>>
    var ethernetPad: seq<Byte>

    constructor ()
      ensures Link() == NOTHING && Found() == NO_LAYERS
    {
      ethernet, llc, vlan, ipv4, ipv6, arp := None, None, None, None, None, None;
      tcp, udp, payload, ethernetPad := None, None, None, [];
    }

    function Found(): Layers
      reads this
    {
      Layers(ipv4, ipv6, arp, Transport(tcp, udp, payload), ethernetPad)
    }

    function Link(): Decoded
      reads this
    {
      Decoded(ethernet, llc, vlan, Found())
    }

    method AddTransport(frame: seq<Byte>, offset: nat, protocol: nat, declaredEnd: int)
      requires tcp == None && udp == None && payload == None
      modifies this`tcp, this`udp, this`payload
      ensures Transport(tcp, udp, payload) == DecodeTransport(frame, offset, protocol, declaredEnd)
    {
      var limit := Limit(frame, offset, declaredEnd);
      if protocol == TCP {
        if offset + 20 > |frame| { return; }
        var header := DecodeTcp(frame, offset);
        tcp := Some(header);
        payload := Some(Slice(frame, offset + AtLeast(20, header.dataOffset), limit));
        return;
      }
      if protocol == UDP {
        if offset + 8 > |frame| { return; }
        udp := Some(DecodeUdp(frame, offset));
        payload := Some(Slice(frame, offset + 8, limit));
      }
    }

    method AddIpv4(frame: seq<Byte>, offset: nat, header: Ipv4Header)
      requires Found() == NO_LAYERS
      modifies this`ipv4, this`tcp, this`udp, this`payload, this`ethernetPad
      ensures Found() == Ipv4Layers(frame, offset, header)
    {
      ipv4 := Some(header);
      var declaredEnd := offset + header.totalLength;
      AddTransport(frame, offset + header.headerLength, header.protocol, declaredEnd);
      ethernetPad := TrailingBytes(frame, declaredEnd);
    }

    method AddIpv6(frame: seq<Byte>, offset: nat, header: Ipv6Header)
      requires Found() == NO_LAYERS
      modifies this`ipv6, this`tcp, this`udp, this`payload, this`ethernetPad
      ensures Found() == Ipv6Layers(frame, offset, header)
    {
      ipv6 := Some(header);
      var declaredEnd := offset + 40 + header.payloadLength;
      AddTransport(frame, offset + 40, header.nextHeader, declaredEnd);
      ethernetPad := TrailingBytes(frame, declaredEnd);
    }

    method AddNetworkLayer(frame: seq<Byte>, offset: nat, etherType: nat)
      requires Found() == NO_LAYERS
      modifies this`ipv4, this`ipv6, this`arp, this`tcp, this`udp, this`payload, this`ethernetPad
      ensures Found() == NetworkLayers(frame, offset, etherType)
    {
      if etherType == IPV4 {
        var header := DecodeIpv4(frame, offset);
        if header.Some? { AddIpv4(frame, offset, header.value); }
      } else if etherType == IPV6 {
        var header := DecodeIpv6(frame, offset);
        if header.Some? { AddIpv6(frame, offset, header.value); }
      } else if etherType == ARP || etherType == RARP {
        arp := DecodeArp(frame, offset);
        if arp.Some? { ethernetPad := TrailingBytes(frame, offset + 28); }
      }
    }

    /** The tag loop, then what is inside. */
    method AddTagged(frame: seq<Byte>, start: nat, outerType: nat)
      requires vlan == None && Found() == NO_LAYERS
      modifies this`vlan, this`ipv4, this`ipv6, this`arp, this`tcp, this`udp, this`payload, this`ethernetPad
      ensures vlan == OuterTag(frame, start, outerType)
      ensures Found() == LayersAfter(frame, Unwrap(frame, start, outerType, MAX_TAGS))
    {
      var offset, etherType, tagGuard := start, outerType, 0;
      while IsTag(etherType) && tagGuard < MAX_TAGS
        invariant 0 <= tagGuard <= MAX_TAGS && 0 <= offset
        invariant vlan == if tagGuard == 0 then None else OuterTag(frame, start, outerType)
        invariant tagGuard == 0 ==> offset == start && etherType == outerType
        invariant tagGuard > 0 ==> OuterTag(frame, start, outerType).Some?
        invariant Found() == NO_LAYERS
        invariant Unwrap(frame, start, outerType, MAX_TAGS) == Unwrap(frame, offset, etherType, MAX_TAGS - tagGuard)
        decreases MAX_TAGS - tagGuard
      {
        if offset + 4 > |frame| { return; }
        if vlan == None { vlan := Some(DecodeTag(frame, offset)); }
        etherType := ReadU16(frame, offset + 2);
        offset, tagGuard := offset + 4, tagGuard + 1;
      }
      AddNetworkLayer(frame, offset, etherType);
    }

    method DecodePacket(frame: seq<Byte>, linkType: LinkType)
      requires Link() == NOTHING
      modifies this
      ensures Link() == Decode(frame, linkType)
    {
      if !linkType.Ethernet? {
        var ipOffset := if linkType.Raw? then 0 else 4;
        if |frame| <= ipOffset { return; }
        var version := frame[ipOffset] / 16;
        if version == 4 {
          AddNetworkLayer(frame, ipOffset, IPV4);
        } else if version == 6 {
          AddNetworkLayer(frame, ipOffset, IPV6);
        }
        return;
      }
      if |frame| < ETHERNET_HEADER_LENGTH { return; }
      var typeOrLength := ReadU16(frame, 12);
      ethernet := Some(EthernetHeader(ReadMac(frame, 0), ReadMac(frame, 6), typeOrLength));
      var offset, etherType := ETHERNET_HEADER_LENGTH, typeOrLength;
      if typeOrLength <= MAX_LENGTH_FIELD {
        llc := DecodeLlc(frame, offset);
        var snap := DecodeSnap(frame, offset);
        if snap.None? { return; }
        etherType, offset := snap.value.0, snap.value.1;
      }
      AddTagged(frame, offset, etherType);
    }
  }
}
