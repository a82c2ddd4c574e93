/**
 What a flow record says, attribute by attribute: each is read from the last field of the template
 that speaks of it, and element numbers are those of the IANA registry.
 */
module FlowAttributes {
  import opened Options
  import opened Bytes
  import opened Fields
  import opened Templates
  import opened Netflow
  import Addresses

  type Reader<A> = (TemplateField, seq<Byte>) -> Option<A>

  /** What the last field that has anything to say says. */
  function Latest<A>(fields: seq<TemplateField>, values: seq<seq<Byte>>, read: Reader<A>): Option<A>
    requires |fields| == |values|
  {
    if fields == [] then None
    else
      var n := |fields| - 1;
      if read(fields[n], values[n]).Some? then read(fields[n], values[n]) else Latest(fields[..n], values[..n], read)
  }

  /** Field `i` speaks, and none behind it does. */
  ghost predicate LastToSpeak<A>(fields: seq<TemplateField>, values: seq<seq<Byte>>, read: Reader<A>, i: nat)
    requires |fields| == |values|
  {
    i < |fields| && read(fields[i], values[i]).Some? &&
    forall j :: i < j < |fields| ==> read(fields[j], values[j]).None?
  }

  /** Nothing is said exactly when no field speaks. */
  lemma {:induction false} LatestNone<A>(fields: seq<TemplateField>, values: seq<seq<Byte>>, read: Reader<A>)
    requires |fields| == |values|
    ensures Latest(fields, values, read).None? <==>
            forall i :: 0 <= i < |fields| ==> read(fields[i], values[i]).None?
  {
    if fields != [] {
      var n := |fields| - 1;
      LatestNone(fields[..n], values[..n], read);
    }
  }

  lemma {:induction false} LatestIsLast<A>(fields: seq<TemplateField>, values: seq<seq<Byte>>, read: Reader<A>, i: nat)
    requires |fields| == |values| && LastToSpeak(fields, values, read, i)
    ensures Latest(fields, values, read) == read(fields[i], values[i])
  {
    var n := |fields| - 1;
    if i < n {
      LatestIsLast(fields[..n], values[..n], read, i);
    }
  }

  // ---------- who speaks of what ----------

  /** The registered element of a field; an enterprise's own element is none of these. */
  function Element(f: TemplateField): int { if f.enterprise.Some? then -1 else f.informationElement }

  function SourceAddress(f: TemplateField, v: seq<Byte>): Option<string>
  {
    if Element(f) == 8 && |v| >= 4 then Some(Addresses.ReadIpv4(v, 0))
    else if Element(f) == 27 && |v| >= 16 then Some(Addresses.ReadIpv6(v, 0))
    else None
  }

  function DestinationAddress(f: TemplateField, v: seq<Byte>): Option<string>
  {
    if Element(f) == 12 && |v| >= 4 then Some(Addresses.ReadIpv4(v, 0))
    else if Element(f) == 28 && |v| >= 16 then Some(Addresses.ReadIpv6(v, 0))
    else None
  }

  function Mac(element: int): Reader<string>
  {
    (f: TemplateField, v: seq<Byte>) =>
      if Element(f) == element && |v| >= 6 then Some(Addresses.ReadMac(v, 0)) else None
  }

  function Number(element: int): Reader<nat>
  {
    (f: TemplateField, v: seq<Byte>) => if Element(f) == element then Some(ReadUnsigned(v)) else None
  }

  /** A counter sent as a delta or as a total. */
  function Counter(delta: int, total: int): Reader<nat>
  {
    (f: TemplateField, v: seq<Byte>) =>
      if Element(f) == delta || Element(f) == total then Some(ReadUnsigned(v)) else None
  }

  /** An absolute time in seconds, milliseconds or as an NTP timestamp, in Unix milliseconds; a
      timestamp that cannot be read still takes back what was said before. */
  function Time(seconds: int, milliseconds: int, ntp: int): Reader<Option<int>>
  {
    (f: TemplateField, v: seq<Byte>) =>
      if Element(f) == seconds then Some(Some(ReadUnsigned(v) * 1000))
      else if Element(f) == milliseconds then Some(Some(ReadUnsigned(v)))
      else if Element(f) == ntp then Some(NtpToUnixMs(v))
      else None
  }

  function OrZero(n: Option<nat>): nat { if n.Some? then n.value else 0 }

  function OrNone(t: Option<Option<int>>): Option<int> { if t.Some? then t.value else None }

  // ---------- the attributes ----------

  ghost predicate SaysEndpoints(flow: Flow, fields: seq<TemplateField>, values: seq<seq<Byte>>)
    requires |fields| == |values|
  {
    flow.srcIp == Latest(fields, values, SourceAddress) &&
    flow.dstIp == Latest(fields, values, DestinationAddress)
  }

  ghost predicate SaysPorts(flow: Flow, fields: seq<TemplateField>, values: seq<seq<Byte>>)
    requires |fields| == |values|
  {
    flow.srcPort == OrZero(Latest(fields, values, Number(7))) &&
    flow.dstPort == OrZero(Latest(fields, values, Number(11))) &&
    flow.protocol == OrZero(Latest(fields, values, Number(4)))
  }

  ghost predicate SaysTraffic(flow: Flow, fields: seq<TemplateField>, values: seq<seq<Byte>>)
    requires |fields| == |values|
  {
    flow.packets == OrZero(Latest(fields, values, Counter(2, 86))) &&
    flow.bytes == OrZero(Latest(fields, values, Counter(1, 85))) &&
    flow.tcpFlags == Latest(fields, values, Number(6))
  }

  ghost predicate SaysLinks(flow: Flow, fields: seq<TemplateField>, values: seq<seq<Byte>>)
    requires |fields| == |values|
  {
    flow.ingressInterface == Latest(fields, values, Number(10)) &&
    flow.egressInterface == Latest(fields, values, Number(14)) &&
    flow.srcMac == Latest(fields, values, Mac(56)) &&
    flow.dstMac == Latest(fields, values, Mac(80))
  }

  ghost predicate SaysTimes(flow: Flow, fields: seq<TemplateField>, values: seq<seq<Byte>>)
    requires |fields| == |values|
  {
    flow.startUptimeMs == Latest(fields, values, Number(22)) &&
    flow.endUptimeMs == Latest(fields, values, Number(21)) &&
    flow.startMs == OrNone(Latest(fields, values, Time(150, 152, 154))) &&
    flow.endMs == OrNone(Latest(fields, values, Time(151, 153, 155)))
  }

  lemma LatestSnoc<A>(fields: seq<TemplateField>, values: seq<seq<Byte>>, f: TemplateField, v: seq<Byte>,
                      read: Reader<A>)
    requires |fields| == |values|
    ensures Latest(fields + [f], values + [v], read) ==
            if read(f, v).Some? then read(f, v) else Latest(fields, values, read)
  {
    assert (fields + [f])[..|fields|] == fields && (values + [v])[..|values|] == values;
  }

  lemma {:induction false} FoldSnoc(flow: Flow, fields: seq<TemplateField>, values: seq<seq<Byte>>,
                                    f: TemplateField, v: seq<Byte>)
    requires |fields| == |values|
    ensures Fold(flow, fields + [f], values + [v]) == Interpret(Fold(flow, fields, values), f, v)
    decreases |fields|
  {
    if fields == [] {
      assert ([] + [f])[1..] == [] && fields + [f] == [f] && values + [v] == [v];
    } else {
      assert (fields + [f])[1..] == fields[1..] + [f] && (values + [v])[1..] == values[1..] + [v];
      FoldSnoc(Interpret(flow, fields[0], values[0]), fields[1..], values[1..], f, v);
    }
  }

  lemma EndpointsRead(flow: Flow, f: TemplateField, v: seq<Byte>)
    ensures Interpret(flow, f, v).srcIp == if SourceAddress(f, v).Some? then SourceAddress(f, v) else flow.srcIp
    ensures Interpret(flow, f, v).dstIp ==
            if DestinationAddress(f, v).Some? then DestinationAddress(f, v) else flow.dstIp
  {
  }

  lemma EndpointsStep(flow: Flow, fields: seq<TemplateField>, values: seq<seq<Byte>>, f: TemplateField, v: seq<Byte>)
    requires |fields| == |values| && SaysEndpoints(flow, fields, values)
    ensures SaysEndpoints(Interpret(flow, f, v), fields + [f], values + [v])
  {
    EndpointsRead(flow, f, v);
    LatestSnoc(fields, values, f, v, SourceAddress);
    LatestSnoc(fields, values, f, v, DestinationAddress);
  }

  lemma PortsRead(flow: Flow, f: TemplateField, v: seq<Byte>)
    ensures Interpret(flow, f, v).srcPort == if Number(7)(f, v).Some? then Number(7)(f, v).value else flow.srcPort
    ensures Interpret(flow, f, v).dstPort == if Number(11)(f, v).Some? then Number(11)(f, v).value else flow.dstPort
    ensures Interpret(flow, f, v).protocol == if Number(4)(f, v).Some? then Number(4)(f, v).value else flow.protocol
  {
  }

  lemma PortsStep(flow: Flow, fields: seq<TemplateField>, values: seq<seq<Byte>>, f: TemplateField, v: seq<Byte>)
    requires |fields| == |values| && SaysPorts(flow, fields, values)
    ensures SaysPorts(Interpret(flow, f, v), fields + [f], values + [v])
  {
    PortsRead(flow, f, v);
    LatestSnoc(fields, values, f, v, Number(7));
    LatestSnoc(fields, values, f, v, Number(11));
    LatestSnoc(fields, values, f, v, Number(4));
  }

  lemma TrafficRead(flow: Flow, f: TemplateField, v: seq<Byte>)
    ensures Interpret(flow, f, v).packets ==
            if Counter(2, 86)(f, v).Some? then Counter(2, 86)(f, v).value else flow.packets
    ensures Interpret(flow, f, v).bytes == if Counter(1, 85)(f, v).Some? then Counter(1, 85)(f, v).value else flow.bytes
    ensures Interpret(flow, f, v).tcpFlags == if Number(6)(f, v).Some? then Number(6)(f, v) else flow.tcpFlags
  {
  }

  lemma TrafficStep(flow: Flow, fields: seq<TemplateField>, values: seq<seq<Byte>>, f: TemplateField, v: seq<Byte>)
    requires |fields| == |values| && SaysTraffic(flow, fields, values)
    ensures SaysTraffic(Interpret(flow, f, v), fields + [f], values + [v])
  {
    TrafficRead(flow, f, v);
    LatestSnoc(fields, values, f, v, Counter(2, 86));
    LatestSnoc(fields, values, f, v, Counter(1, 85));
    LatestSnoc(fields, values, f, v, Number(6));
  }

  lemma LinksRead(flow: Flow, f: TemplateField, v: seq<Byte>)
    ensures Interpret(flow, f, v).ingressInterface ==
            if Number(10)(f, v).Some? then Number(10)(f, v) else flow.ingressInterface
    ensures Interpret(flow, f, v).egressInterface ==
            if Number(14)(f, v).Some? then Number(14)(f, v) else flow.egressInterface
    ensures Interpret(flow, f, v).srcMac == if Mac(56)(f, v).Some? then Mac(56)(f, v) else flow.srcMac
    ensures Interpret(flow, f, v).dstMac == if Mac(80)(f, v).Some? then Mac(80)(f, v) else flow.dstMac
  {
  }

  lemma LinksStep(flow: Flow, fields: seq<TemplateField>, values: seq<seq<Byte>>, f: TemplateField, v: seq<Byte>)
    requires |fields| == |values| && SaysLinks(flow, fields, values)
    ensures SaysLinks(Interpret(flow, f, v), fields + [f], values + [v])
  {
    LinksRead(flow, f, v);
    LatestSnoc(fields, values, f, v, Number(10));
    LatestSnoc(fields, values, f, v, Number(14));
    LatestSnoc(fields, values, f, v, Mac(56));
    LatestSnoc(fields, values, f, v, Mac(80));
  }

  lemma TimesRead(flow: Flow, f: TemplateField, v: seq<Byte>)
    ensures Interpret(flow, f, v).startUptimeMs ==
            if Number(22)(f, v).Some? then Number(22)(f, v) else flow.startUptimeMs
    ensures Interpret(flow, f, v).endUptimeMs == if Number(21)(f, v).Some? then Number(21)(f, v) else flow.endUptimeMs
    ensures Interpret(flow, f, v).startMs ==
            if Time(150, 152, 154)(f, v).Some? then Time(150, 152, 154)(f, v).value else flow.startMs
    ensures Interpret(flow, f, v).endMs ==
            if Time(151, 153, 155)(f, v).Some? then Time(151, 153, 155)(f, v).value else flow.endMs
  {
  }

  lemma TimesStep(flow: Flow, fields: seq<TemplateField>, values: seq<seq<Byte>>, f: TemplateField, v: seq<Byte>)
    requires |fields| == |values| && SaysTimes(flow, fields, values)
    ensures SaysTimes(Interpret(flow, f, v), fields + [f], values + [v])
  {
    TimesRead(flow, f, v);
    LatestSnoc(fields, values, f, v, Number(22));
    LatestSnoc(fields, values, f, v, Number(21));
    LatestSnoc(fields, values, f, v, Time(150, 152, 154));
    LatestSnoc(fields, values, f, v, Time(151, 153, 155));
  }

  lemma {:induction false} FoldSays(fields: seq<TemplateField>, values: seq<seq<Byte>>)
    requires |fields| == |values|
    ensures SaysEndpoints(Fold(EMPTY_FLOW, fields, values), fields, values)
    ensures SaysPorts(Fold(EMPTY_FLOW, fields, values), fields, values)
    ensures SaysTraffic(Fold(EMPTY_FLOW, fields, values), fields, values)
    ensures SaysLinks(Fold(EMPTY_FLOW, fields, values), fields, values)
    ensures SaysTimes(Fold(EMPTY_FLOW, fields, values), fields, values)
  {
    if fields != [] {
      var n := |fields| - 1;
      var flow := Fold(EMPTY_FLOW, fields[..n], values[..n]);
      FoldSays(fields[..n], values[..n]);
      FoldSnoc(EMPTY_FLOW, fields[..n], values[..n], fields[n], values[n]);
      EndpointsStep(flow, fields[..n], values[..n], fields[n], values[n]);
      PortsStep(flow, fields[..n], values[..n], fields[n], values[n]);
      TrafficStep(flow, fields[..n], values[..n], fields[n], values[n]);
      LinksStep(flow, fields[..n], values[..n], fields[n], values[n]);
      TimesStep(flow, fields[..n], values[..n], fields[n], values[n]);
      assert fields == fields[..n] + [fields[n]] && values == values[..n] + [values[n]];
    }
  }

  // ---------- when the flow happened ----------

  /** One end of the flow: its absolute time, else the exporter's boot time plus its uptime when the boot
      time is known; and nothing at all unless that is later than 1 January 2000. */
  function Known(absolute: Option<int>, uptime: Option<int>, bootMs: int): Option<int>
  {
    match (absolute, uptime)
    case (Some(t), _) => if t > 946_684_800_000 then Some(t) else None
    case (None, Some(u)) => if bootMs > 0 && bootMs + u > 946_684_800_000 then Some(bootMs + u) else None
    case (None, None) => None
  }

  /** Both ends if both are known, one for both if only one is, the arrival for both if neither is. */
  ghost predicate Happened(r: FlowRecord)
  {
    match (Known(r.flow.startMs, r.flow.startUptimeMs, r.context.bootMs),
           Known(r.flow.endMs, r.flow.endUptimeMs, r.context.bootMs))
    case (Some(a), Some(b)) => r.start == a && r.end == if a > b then a else b
    case (Some(a), None) => r.start == a && r.end == a
    case (None, Some(b)) => r.start == b && r.end == b
    case (None, None) => r.start == r.context.observedAt && r.end == r.context.observedAt
  }

  /** Everything a record says, given the field values it was read from. */
  ghost predicate Says(r: FlowRecord, fields: seq<TemplateField>, values: seq<seq<Byte>>, context: Context)
    requires |fields| == |values|
  {
    r.context == context && SaysEndpoints(r.flow, fields, values) && SaysPorts(r.flow, fields, values) &&
    SaysTraffic(r.flow, fields, values) && SaysLinks(r.flow, fields, values) &&
    SaysTimes(r.flow, fields, values) && Happened(r)
  }

  lemma ResolvedHappened(flow: Flow, context: Context)
    ensures var times := ResolveTimes(flow, context);
            Happened(FlowRecord(context, flow, times.0, times.1))
  {
  }

  /** For every template, list of field values and context: what each attribute of the record is. */
  lemma RecordSays(fields: seq<TemplateField>, values: seq<seq<Byte>>, context: Context)
    requires |fields| == |values|
    ensures Says(ToRecord(fields, values, context), fields, values, context)
  {
    FoldSays(fields, values);
    ResolvedHappened(Fold(EMPTY_FLOW, fields, values), context);
  }
}
