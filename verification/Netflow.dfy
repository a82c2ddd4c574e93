/**
 NetFlow v9 (RFC 3954) and IPFIX (RFC 7011): one walker over a header and a sequence of
 sets, each a template definition or data records laid out by a template.

 Each loop of the walker is a method proved equal to a specification function. The
 functions separate what the loops interleave: a message is cut into sets, the sets into
 templates or records, and only then is the cache touched.
 */
module Netflow {
  import opened Options
  import opened Radix
  import opened Bytes
  import opened Fields
  import opened Templates
  import Addresses

  const SET_HEADER_LENGTH: nat := 4
  const MIN_DATA_SET_ID: nat := 256
  const NTP_EPOCH_OFFSET_SECONDS: int := 2_208_988_800

  datatype Dialect = V9 | Ipfix
  {
    function HeaderLength(): nat { if V9? then 20 else 16 }
    function TemplateSetId(): nat { if V9? then 0 else 2 }
    function OptionsTemplateSetId(): nat { if V9? then 1 else 3 }
    predicate EnterpriseCapable() { Ipfix? }
  }

  // ---------- one field ----------

  const OCTET_DELTA_COUNT: nat := 1
  const PACKET_DELTA_COUNT: nat := 2
  const PROTOCOL_IDENTIFIER: nat := 4
  const TCP_CONTROL_BITS: nat := 6
  const SOURCE_TRANSPORT_PORT: nat := 7
  const SOURCE_IPV4_ADDRESS: nat := 8
  const INGRESS_INTERFACE: nat := 10
  const DESTINATION_TRANSPORT_PORT: nat := 11
  const DESTINATION_IPV4_ADDRESS: nat := 12
  const EGRESS_INTERFACE: nat := 14
  const FLOW_END_SYS_UP_TIME: nat := 21
  const FLOW_START_SYS_UP_TIME: nat := 22
  const SOURCE_IPV6_ADDRESS: nat := 27
  const DESTINATION_IPV6_ADDRESS: nat := 28
  const SOURCE_MAC_ADDRESS: nat := 56
  const DESTINATION_MAC_ADDRESS: nat := 80
  const OCTET_TOTAL_COUNT: nat := 85
  const PACKET_TOTAL_COUNT: nat := 86
  const FLOW_START_SECONDS: nat := 150
  const FLOW_END_SECONDS: nat := 151
  const FLOW_START_MILLISECONDS: nat := 152
  const FLOW_END_MILLISECONDS: nat := 153
  const FLOW_START_MICROSECONDS: nat := 154
  const FLOW_END_MICROSECONDS: nat := 155

  /** A big-endian number; of seven bytes, or more than eight, only the low six are read. */
  function ReadUnsigned(value: seq<Byte>): nat
  {
    if |value| <= 6 || |value| == 8 then ReadUint(value) else ReadUint(value[|value| - 6..])
  }

  /** NTP seconds and binary fraction to Unix milliseconds. */
  function NtpToUnixMs(value: seq<Byte>): Option<int>
  {
    if |value| < 8 || ReadU32(value, 0) == 0 then None
    else Some((ReadU32(value, 0) - NTP_EPOCH_OFFSET_SECONDS) * 1000 + ReadU32(value, 4) * 1000 / 0x1_0000_0000)
  }

  datatype Flow = Flow(
    protocol: nat, srcIp: Option<string>, dstIp: Option<string>, srcPort: nat, dstPort: nat,
    packets: nat, bytes: nat, tcpFlags: Option<nat>, srcMac: Option<string>, dstMac: Option<string>,
    ingressInterface: Option<nat>, egressInterface: Option<nat>,
    startMs: Option<int>, endMs: Option<int>, startUptimeMs: Option<int>, endUptimeMs: Option<int>)

  const EMPTY_FLOW: Flow :=
    Flow(0, None, None, 0, 0, 0, 0, None, None, None, None, None, None, None, None, None)

  /** What one field's bytes say about the flow. Enterprise fields and unknown elements say nothing. */
  function Interpret(flow: Flow, field: TemplateField, value: seq<Byte>): Flow
  {
    var ie := field.informationElement;
    if field.enterprise.Some? then flow
    else if ie == PROTOCOL_IDENTIFIER then flow.(protocol := ReadUnsigned(value))
    else if ie == SOURCE_IPV4_ADDRESS then
      if |value| >= 4 then flow.(srcIp := Some(Addresses.ReadIpv4(value, 0))) else flow
    else if ie == DESTINATION_IPV4_ADDRESS then
      if |value| >= 4 then flow.(dstIp := Some(Addresses.ReadIpv4(value, 0))) else flow
    else if ie == SOURCE_IPV6_ADDRESS then
      if |value| >= 16 then flow.(srcIp := Some(Addresses.ReadIpv6(value, 0))) else flow
    else if ie == DESTINATION_IPV6_ADDRESS then
      if |value| >= 16 then flow.(dstIp := Some(Addresses.ReadIpv6(value, 0))) else flow
    else if ie == SOURCE_TRANSPORT_PORT then flow.(srcPort := ReadUnsigned(value))
    else if ie == DESTINATION_TRANSPORT_PORT then flow.(dstPort := ReadUnsigned(value))
    else if ie == PACKET_DELTA_COUNT || ie == PACKET_TOTAL_COUNT then flow.(packets := ReadUnsigned(value))
    else if ie == OCTET_DELTA_COUNT || ie == OCTET_TOTAL_COUNT then flow.(bytes := ReadUnsigned(value))
    else if ie == TCP_CONTROL_BITS then flow.(tcpFlags := Some(ReadUnsigned(value)))
    else if ie == SOURCE_MAC_ADDRESS then
      if |value| >= 6 then flow.(srcMac := Some(Addresses.ReadMac(value, 0))) else flow
    else if ie == DESTINATION_MAC_ADDRESS then
      if |value| >= 6 then flow.(dstMac := Some(Addresses.ReadMac(value, 0))) else flow
    else if ie == INGRESS_INTERFACE then flow.(ingressInterface := Some(ReadUnsigned(value)))
    else if ie == EGRESS_INTERFACE then flow.(egressInterface := Some(ReadUnsigned(value)))
    else if ie == FLOW_START_SYS_UP_TIME then flow.(startUptimeMs := Some(ReadUnsigned(value)))
    else if ie == FLOW_END_SYS_UP_TIME then flow.(endUptimeMs := Some(ReadUnsigned(value)))
    else if ie == FLOW_START_SECONDS then flow.(startMs := Some(ReadUnsigned(value) * 1000))
    else if ie == FLOW_END_SECONDS then flow.(endMs := Some(ReadUnsigned(value) * 1000))
    else if ie == FLOW_START_MILLISECONDS then flow.(startMs := Some(ReadUnsigned(value)))
    else if ie == FLOW_END_MILLISECONDS then flow.(endMs := Some(ReadUnsigned(value)))
    else if ie == FLOW_START_MICROSECONDS then flow.(startMs := NtpToUnixMs(value))
    else if ie == FLOW_END_MICROSECONDS then flow.(endMs := NtpToUnixMs(value))
    else flow
  }

  /** The flow a list of field values describes, taken in template order. */
  function Fold(flow: Flow, fields: seq<TemplateField>, values: seq<seq<Byte>>): Flow
    decreases |fields|
  {
    if fields == [] || values == [] then flow else Fold(Interpret(flow, fields[0], values[0]), fields[1..], values[1..])
  }

  /** Where a field's bytes start and end, or None when they are not all there. */
  function FieldSpan(body: seq<Byte>, offset: nat, field: TemplateField): (span: Option<(nat, nat)>)
    ensures span.Some? ==> offset <= span.value.0 <= span.value.1 <= |body|
  {
    if field.length != VARIABLE_LENGTH then
      if offset + field.length > |body| then None else Some((offset, offset + field.length))
    else if offset >= |body| then None
    else if body[offset] != 255 then
      var start := offset + 1;
      if start + body[offset] > |body| then None else Some((start, start + body[offset]))
    else if offset + 3 > |body| then None
    else
      var start := offset + 3;
      var length := ReadU16(body, offset + 1);
      if start + length > |body| then None else Some((start, start + length))
  }

  // ---------- one record ----------

  datatype Layout = Layout(values: seq<seq<Byte>>, next: nat)

  /** The bytes of each field of one record and where the next record starts. */
  function RecordLayout(body: seq<Byte>, offset: nat, fields: seq<TemplateField>): (r: Option<Layout>)
    ensures r.Some? ==> |r.value.values| == |fields| && offset <= r.value.next
    ensures r.Some? && offset <= |body| ==> r.value.next <= |body|
    decreases |fields|
  {
    if fields == [] then Some(Layout([], offset))
    else match FieldSpan(body, offset, fields[0])
         case None => None
         case Some(span) =>
           match RecordLayout(body, span.1, fields[1..])
           case None => None
           case Some(rest) => Some(Layout([body[span.0..span.1]] + rest.values, rest.next))
  }

  datatype Context = Context(
    exporter: string, observationDomain: nat, protocolVersion: Dialect, bootMs: int, observedAt: int)

  /** 2000-01-01, the floor below which an exporter clock is taken to be broken. */
  const PLAUSIBLE_FLOOR: int := 946_684_800_000

  function Plausible(ms: Option<int>): Option<int>
  {
    if ms.Some? && ms.value > PLAUSIBLE_FLOOR then ms else None
  }

  function AbsoluteTime(absolute: Option<int>, uptime: Option<int>, bootMs: int): Option<int>
  {
    if absolute.Some? then absolute
    else if uptime.Some? && bootMs > 0 then Some(bootMs + uptime.value)
    else None
  }

  /** Start and end of a flow: from its absolute fields if it has them, else from uptimes, else the arrival. */
  function ResolveTimes(flow: Flow, context: Context): (times: (int, int))
    ensures times.0 <= times.1
    ensures times.0 > PLAUSIBLE_FLOOR || times == (context.observedAt, context.observedAt)
  {
    var start := Plausible(AbsoluteTime(flow.startMs, flow.startUptimeMs, context.bootMs));
    var end := Plausible(AbsoluteTime(flow.endMs, flow.endUptimeMs, context.bootMs));
    if start.Some? && end.Some? then (start.value, if start.value > end.value then start.value else end.value)
    else if end.Some? then (end.value, end.value)
    else if start.Some? then (start.value, start.value)
    else (context.observedAt, context.observedAt)
  }

  datatype FlowRecord = FlowRecord(context: Context, flow: Flow, start: int, end: int)

  /** The record its field values describe. */
  function ToRecord(fields: seq<TemplateField>, values: seq<seq<Byte>>, context: Context): FlowRecord
  {
    var flow := Fold(EMPTY_FLOW, fields, values);
    var times := ResolveTimes(flow, context);
    FlowRecord(context, flow, times.0, times.1)
  }

  /** What a record comes to, given a layout of the fields still to read. */
  ghost function Outcome(flow: Flow, fields: seq<TemplateField>, layout: Option<Layout>): Option<(Flow, nat)>
  {
    match layout
    case None => None
    case Some(l) => Some((Fold(flow, fields, l.values), l.next))
  }

  ghost function Remaining(body: seq<Byte>, offset: nat, fields: seq<TemplateField>, flow: Flow): Option<(Flow, nat)>
  {
    Outcome(flow, fields, RecordLayout(body, offset, fields))
  }

  /** Section 7 of RFC 7011: a variable-length field carries a 1-byte length, or 255 and a 2-byte one. */
  method LocateField(body: seq<Byte>, offset: nat, field: TemplateField) returns (span: Option<(nat, nat)>)
    ensures span == FieldSpan(body, offset, field)
  {
    var at, length := offset, field.length;
    if length == VARIABLE_LENGTH {
      if at >= |body| { return None; }
      length := body[at];
      at := at + 1;
      if length == 255 {
        if at + 2 > |body| { return None; }
        length := ReadU16(body, at);
        at := at + 2;
      }
    }
    if at + length > |body| { return None; }
    return Some((at, at + length));
  }

  /** Reads one field; the record still comes to the same. */
  method ReadField(body: seq<Byte>, offset: nat, fields: seq<TemplateField>, i: nat, flow: Flow)
    returns (r: Option<(Flow, nat)>)
    requires i < |fields|
    ensures r.None? ==> Remaining(body, offset, fields[i..], flow) == None
    ensures r.Some? ==> r.value.1 >= offset
    ensures r.Some? ==> Remaining(body, offset, fields[i..], flow) ==
                        Remaining(body, r.value.1, fields[i + 1..], r.value.0)
  {
    assert fields[i..][0] == fields[i] && fields[i..][1..] == fields[i + 1..];
    var span := LocateField(body, offset, fields[i]);
    if span.None? { return None; }
    var value := body[span.value.0..span.value.1];
    return Some((Interpret(flow, fields[i], value), span.value.1));
  }

  method DecodeRecord(body: seq<Byte>, start: nat, template: Template, context: Context)
    returns (r: Option<(FlowRecord, nat)>)
    ensures r == match RecordLayout(body, start, template.fields)
                 case None => None
                 case Some(layout) =>
                   Some((ToRecord(template.fields, layout.values, context), layout.next - start))
  {
    var fields := template.fields;
    var offset, flow := start, EMPTY_FLOW;
    assert fields[0..] == fields;
    for i := 0 to |fields|
      invariant offset >= start
      invariant Remaining(body, start, fields, EMPTY_FLOW) == Remaining(body, offset, fields[i..], flow)
    {
      var next := ReadField(body, offset, fields, i, flow);
      if next.None? { return None; }
      flow, offset := next.value.0, next.value.1;
    }
    var times := ResolveTimes(flow, context);
    return Some((FlowRecord(context, flow, times.0, times.1), offset - start));
  }

  // ---------- a data set ----------

  /** The fewest remaining bytes that could still be a record rather than padding. */
  function MinRecord(template: Template): nat
  {
    if template.fixedLength.Some? then template.fixedLength.value else |template.fields|
  }

  datatype Decoded = Decoded(records: seq<seq<seq<Byte>>>, malformed: nat)

  /** The records of a set, each as the bytes of its fields. */
  function DataRecords(body: seq<Byte>, offset: nat, template: Template): Decoded
    decreases |body| - offset
  {
    if offset >= |body| || |body| - offset < MinRecord(template) then Decoded([], 0)
    else match RecordLayout(body, offset, template.fields)
         case None => Decoded([], 1)
         case Some(layout) =>
           if layout.next <= offset then Decoded([layout.values], 1)
           else
             var rest := DataRecords(body, layout.next, template);
             Decoded([layout.values] + rest.records, rest.malformed)
  }

  function ToRecords(fields: seq<TemplateField>, records: seq<seq<seq<Byte>>>, context: Context)
    : (r: seq<FlowRecord>)
    ensures |r| == |records|
  {
    seq(|records|, i requires 0 <= i < |records| => ToRecord(fields, records[i], context))
  }

  /** A data set's records and how many times it was malformed, from `offset` on. */
  ghost function RecordsFrom(body: seq<Byte>, offset: nat, template: Template, context: Context)
    : (seq<FlowRecord>, nat)
  {
    var d := DataRecords(body, offset, template);
    (ToRecords(template.fields, d.records, context), d.malformed)
  }

  method NextRecord(body: seq<Byte>, offset: nat, template: Template, context: Context)
    returns (r: Option<(FlowRecord, nat)>)
    requires offset < |body| && |body| - offset >= MinRecord(template)
    ensures r.None? ==> RecordsFrom(body, offset, template, context) == ([], 1)
    ensures r.Some? && r.value.1 == 0 ==> RecordsFrom(body, offset, template, context) == ([r.value.0], 1)
    ensures r.Some? ==> offset + r.value.1 <= |body|
    ensures r.Some? && r.value.1 > 0 ==>
              var rest := RecordsFrom(body, offset + r.value.1, template, context);
              RecordsFrom(body, offset, template, context) == ([r.value.0] + rest.0, rest.1)
  {
    r := DecodeRecord(body, offset, template, context);
    if r.Some? {
      ghost var values := RecordLayout(body, offset, template.fields).value.values;
      if r.value.1 == 0 {
        assert ToRecords(template.fields, [values], context) == [r.value.0];
      } else {
        ToRecordsCons(template.fields, values, DataRecords(body, offset + r.value.1, template).records, context);
      }
    }
  }

  lemma ToRecordsCons(fields: seq<TemplateField>, first: seq<seq<Byte>>, rest: seq<seq<seq<Byte>>>, context: Context)
    ensures ToRecords(fields, [first] + rest, context) ==
            [ToRecord(fields, first, context)] + ToRecords(fields, rest, context)
  {
  }

  method ReadDataSet(body: seq<Byte>, template: Template, context: Context)
    returns (records: seq<FlowRecord>, malformed: nat)
    ensures records == ToRecords(template.fields, DataRecords(body, 0, template).records, context)
    ensures malformed == DataRecords(body, 0, template).malformed
  {
    var offset := 0;
    records, malformed := [], 0;
    while offset < |body|
      invariant malformed == 0
      invariant RecordsFrom(body, 0, template, context).0 == records + RecordsFrom(body, offset, template, context).0
      invariant RecordsFrom(body, 0, template, context).1 == RecordsFrom(body, offset, template, context).1
      decreases |body| - offset
    {
      if template.fixedLength.Some? {
        if |body| - offset < template.fixedLength.value { break; }
      } else if |body| - offset < |template.fields| {
        break;
      }
      var decoded := NextRecord(body, offset, template, context);
      if decoded.None? {
        malformed := malformed + 1;
        break;
      }
      records := records + [decoded.value.0];
      if decoded.value.1 <= 0 {
        malformed := malformed + 1;
        break;
      }
      offset := offset + decoded.value.1;
    }
  }

  // ---------- a template set ----------

  /** `count` field definitions, or None when the body ends inside one. */
  function FieldSpecs(body: seq<Byte>, offset: nat, count: nat, dialect: Dialect)
    : (r: Option<(seq<TemplateField>, nat)>)
    ensures r.Some? ==> r.value.1 >= offset && |r.value.0| == count
    decreases count
  {
    if count == 0 then Some(([], offset))
    else if offset + 4 > |body| then None
    else
      var raw := ReadU16(body, offset);
      var length := ReadU16(body, offset + 2);
      if dialect.EnterpriseCapable() && raw >= 0x8000 then
        if offset + 8 > |body| then None
        else match FieldSpecs(body, offset + 8, count - 1, dialect)
             case None => None
             case Some(rest) =>
               Some(([TemplateField(raw % 0x8000, length, Some(ReadU32(body, offset + 4)))] + rest.0, rest.1))
      else match FieldSpecs(body, offset + 4, count - 1, dialect)
           case None => None
           case Some(rest) => Some(([TemplateField(raw, length, None)] + rest.0, rest.1))
  }

  /** The templates a set defines, and whether it ended inside one. A zero field count defines nothing. */
  function TemplatesIn(body: seq<Byte>, offset: nat, dialect: Dialect): (seq<Template>, bool)
    decreases |body| - offset
  {
    if offset + 4 > |body| then ([], false)
    else
      var id := ReadU16(body, offset);
      var count := ReadU16(body, offset + 2);
      if count == 0 then TemplatesIn(body, offset + 4, dialect)
      else match FieldSpecs(body, offset + 4, count, dialect)
           case None => ([], true)
           case Some((fields, next)) =>
             var rest := TemplatesIn(body, next, dialect);
             ([Template(id, fields, FixedLength(fields))] + rest.0, rest.1)
  }

  function Learn(s: CacheState, limit: nat, exporter: string, domain: nat, templates: seq<Template>): CacheState
    decreases |templates|
  {
    if templates == [] then s
    else Learn(Store(s, limit, TemplateKey(exporter, domain, templates[0].id), templates[0]),
               limit, exporter, domain, templates[1..])
  }

  method ReadFieldSpecs(body: seq<Byte>, start: nat, fieldCount: nat, dialect: Dialect)
    returns (fields: seq<TemplateField>, next: nat, truncated: bool)
    ensures truncated <==> FieldSpecs(body, start, fieldCount, dialect).None?
    ensures !truncated ==> FieldSpecs(body, start, fieldCount, dialect) == Some((fields, next))
  {
    fields, next, truncated := [], start, false;
    ghost var whole := FieldSpecs(body, start, fieldCount, dialect);
    assert PrependFields([], whole) == whole by {
      if whole.Some? { assert [] + whole.value.0 == whole.value.0; }
    }
    for index := 0 to fieldCount
      invariant !truncated
      invariant whole == PrependFields(fields, FieldSpecs(body, next, fieldCount - index, dialect))
    {
      ghost var offset, before := next, fields;
      if next + 4 > |body| {
        truncated := true;
        return;
      }
      var rawElement := ReadU16(body, next);
      var length := ReadU16(body, next + 2);
      next := next + 4;
      var enterprise: Option<nat> := None;
      var informationElement := rawElement;
      if dialect.EnterpriseCapable() && rawElement >= 0x8000 {
        informationElement := rawElement % 0x8000;
        if next + 4 > |body| {
          truncated := true;
          return;
        }
        enterprise := Some(ReadU32(body, next));
        next := next + 4;
      }
      var field := TemplateField(informationElement, length, enterprise);
      fields := fields + [field];
      AppendField(before, field, FieldSpecs(body, next, fieldCount - index - 1, dialect));
    }
    assert fields + [] == fields;
  }

  ghost function PrependFields(fields: seq<TemplateField>, rest: Option<(seq<TemplateField>, nat)>)
    : Option<(seq<TemplateField>, nat)>
  {
    match rest
    case None => None
    case Some(r) => Some((fields + r.0, r.1))
  }

  lemma AppendField(before: seq<TemplateField>, field: TemplateField, rest: Option<(seq<TemplateField>, nat)>)
    ensures PrependFields(before, PrependFields([field], rest)) == PrependFields(before + [field], rest)
  {
    if rest.Some? {
      assert before + ([field] + rest.value.0) == before + [field] + rest.value.0;
    }
  }

  method ReadTemplateSet(body: seq<Byte>, exporter: string, observationDomain: nat,
                         templates: TemplateCache, dialect: Dialect)
    returns (malformed: nat)
    modifies templates
    ensures templates.State() == Learn(old(templates.State()), templates.maxTemplates, exporter, observationDomain,
                                       TemplatesIn(body, 0, dialect).0)
    ensures malformed == if TemplatesIn(body, 0, dialect).1 then 1 else 0
  {
    var offset := 0;
    malformed := 0;
    while offset + 4 <= |body|
      invariant Learn(old(templates.State()), templates.maxTemplates, exporter, observationDomain,
                      TemplatesIn(body, 0, dialect).0) ==
                Learn(templates.State(), templates.maxTemplates, exporter, observationDomain,
                      TemplatesIn(body, offset, dialect).0)
      invariant TemplatesIn(body, 0, dialect).1 == TemplatesIn(body, offset, dialect).1
      decreases |body| - offset
    {
      var templateId := ReadU16(body, offset);
      var fieldCount := ReadU16(body, offset + 2);
      offset := offset + 4;
      if fieldCount == 0 { continue; }
      var fields, next, truncated := ReadFieldSpecs(body, offset, fieldCount, dialect);
      if truncated {
        malformed := malformed + 1;
        return;
      }
      offset := next;
      var fixedLength := TemplateFixedLength(fields);
      templates.Set(TemplateKey(exporter, observationDomain, templateId), Template(templateId, fields, fixedLength));
    }
  }

  // ---------- a message ----------

  datatype FlowSet = FlowSet(id: nat, body: seq<Byte>)

  /** The sets in `message[offset..end]`, and whether the walk stopped at an impossible length. */
  function SetsIn(message: seq<Byte>, offset: nat, end: nat): (seq<FlowSet>, bool)
    requires end <= |message|
    decreases end - offset
  {
    if offset + SET_HEADER_LENGTH > end then ([], false)
    else
      var id := ReadU16(message, offset);
      var length := ReadU16(message, offset + 2);
      if length < SET_HEADER_LENGTH || offset + length > end then ([], true)
      else
        var rest := SetsIn(message, offset + length, end);
        ([FlowSet(id, message[offset + SET_HEADER_LENGTH..offset + length])] + rest.0, rest.1)
  }

  datatype ParseResult = ParseResult(records: seq<FlowRecord>, pendingTemplates: nat, malformed: nat)

  const EMPTY_RESULT: ParseResult := ParseResult([], 0, 0)

  datatype Progress = Progress(cache: CacheState, result: ParseResult)

  function ApplySet(p: Progress, limit: nat, s: FlowSet, context: Context): Progress
  {
    var dialect := context.protocolVersion;
    if s.id == dialect.TemplateSetId() then
      var (templates, truncated) := TemplatesIn(s.body, 0, dialect);
      Progress(Learn(p.cache, limit, context.exporter, context.observationDomain, templates),
               p.result.(malformed := p.result.malformed + if truncated then 1 else 0))
    else if s.id == dialect.OptionsTemplateSetId() then p
    else if s.id >= MIN_DATA_SET_ID then
      match Lookup(p.cache, TemplateKey(context.exporter, context.observationDomain, s.id))
      case Some(template) =>
        var decoded := DataRecords(s.body, 0, template);
        p.(result := p.result.(records := p.result.records + ToRecords(template.fields, decoded.records, context),
                               malformed := p.result.malformed + decoded.malformed))
      case None => p.(result := p.result.(pendingTemplates := p.result.pendingTemplates + 1))
    else p.(result := p.result.(malformed := p.result.malformed + 1))
  }

  function ApplySets(p: Progress, limit: nat, sets: seq<FlowSet>, context: Context): Progress
    decreases |sets|
  {
    if sets == [] then p else ApplySets(ApplySet(p, limit, sets[0], context), limit, sets[1..], context)
  }

  /** What the header says: the context for records, where the sets end, and whether that was in doubt. */
  function ReadHeader(datagram: seq<Byte>, exporter: string, observedAt: int, dialect: Dialect)
    : (h: (Context, nat, bool))
    requires |datagram| >= dialect.HeaderLength()
    ensures dialect.HeaderLength() <= h.1 <= |datagram|
  {
    if dialect.V9? then
      (Context(exporter, ReadU32(datagram, 16), dialect,
               ReadU32(datagram, 8) * 1000 - ReadU32(datagram, 4), observedAt), |datagram|, false)
    else
      var declared := ReadU16(datagram, 2);
      var fits := dialect.HeaderLength() <= declared <= |datagram|;
      (Context(exporter, ReadU32(datagram, 12), dialect, 0, observedAt),
       if fits then declared else |datagram|, !fits)
  }

  function ParseSpec(datagram: seq<Byte>, exporter: string, observedAt: int, cache: CacheState, limit: nat,
                     dialect: Dialect): Progress
  {
    if |datagram| < dialect.HeaderLength() then Progress(cache, EMPTY_RESULT.(malformed := 1))
    else
      var (context, end, doubtful) := ReadHeader(datagram, exporter, observedAt, dialect);
      var (sets, desynchronised) := SetsIn(datagram, dialect.HeaderLength(), end);
      var p := ApplySets(Progress(cache, EMPTY_RESULT), limit, sets, context);
      p.(result := p.result.(malformed := p.result.malformed + (if doubtful then 1 else 0) +
                                          (if desynchronised then 1 else 0)))
  }

  /** The walk's next set is the first of those still in the message. */
  lemma SetStep(message: seq<Byte>, offset: nat, end: nat)
    requires offset + SET_HEADER_LENGTH <= end <= |message|
    requires SET_HEADER_LENGTH <= ReadU16(message, offset + 2) <= end - offset
    ensures var length := ReadU16(message, offset + 2);
            var (rest, lost) := SetsIn(message, offset + length, end);
            SetsIn(message, offset, end) ==
            ([FlowSet(ReadU16(message, offset), message[offset + SET_HEADER_LENGTH..offset + length])] + rest, lost)
  {
  }

  /** What the sets from `offset` on make of the progress so far, and whether they end badly. */
  ghost function Walk(p: Progress, limit: nat, message: seq<Byte>, offset: nat, end: nat, context: Context)
    : (Progress, bool)
    requires end <= |message|
  {
    var (sets, lost) := SetsIn(message, offset, end);
    (ApplySets(p, limit, sets, context), lost)
  }

  method WalkSets(datagram: seq<Byte>, start: nat, messageEnd: nat, templates: TemplateCache, context: Context)
    returns (result: ParseResult, desynchronised: bool)
    requires messageEnd <= |datagram|
    modifies templates
    ensures (Progress(templates.State(), result), desynchronised) ==
            Walk(Progress(old(templates.State()), EMPTY_RESULT), templates.maxTemplates,
                 datagram, start, messageEnd, context)
  {
    result, desynchronised := EMPTY_RESULT, false;
    var offset := start;
    ghost var total := Walk(Progress(templates.State(), EMPTY_RESULT), templates.maxTemplates,
                            datagram, start, messageEnd, context);
    while offset + SET_HEADER_LENGTH <= messageEnd
      invariant !desynchronised
      invariant total == Walk(Progress(templates.State(), result), templates.maxTemplates,
                              datagram, offset, messageEnd, context)
      decreases messageEnd - offset
    {
      var next;
      result, next := ReadSet(datagram, offset, messageEnd, templates, context, result);
      if next <= offset {
        desynchronised := true;
        return;
      }
      offset := next;
    }
  }

  /** Reads the set at `offset` and steps over it; an impossible length steps nowhere. */
  method ReadSet(datagram: seq<Byte>, offset: nat, messageEnd: nat, templates: TemplateCache, context: Context,
                 before: ParseResult) returns (result: ParseResult, next: nat)
    requires offset + SET_HEADER_LENGTH <= messageEnd <= |datagram|
    modifies templates
    ensures next > offset ==>
              Walk(Progress(templates.State(), result), templates.maxTemplates, datagram, next, messageEnd, context) ==
              Walk(Progress(old(templates.State()), before), templates.maxTemplates,
                   datagram, offset, messageEnd, context)
    ensures next <= offset ==>
              (Progress(templates.State(), result), true) ==
              Walk(Progress(old(templates.State()), before), templates.maxTemplates,
                   datagram, offset, messageEnd, context)
  {
    var setId := ReadU16(datagram, offset);
    var setLength := ReadU16(datagram, offset + 2);
    if setLength < SET_HEADER_LENGTH || offset + setLength > messageEnd {
      return before, offset;
    }
    var body := datagram[offset + SET_HEADER_LENGTH..offset + setLength];
    SetStep(datagram, offset, messageEnd);
    result := ConsumeSet(FlowSet(setId, body), SetsIn(datagram, offset + setLength, messageEnd).0,
                         templates, context, before);
    next := offset + setLength;
  }

  method ParseTemplated(datagram: seq<Byte>, exporter: string, observedAt: int, templates: TemplateCache,
                        dialect: Dialect) returns (result: ParseResult)
    modifies templates
    ensures Progress(templates.State(), result) ==
            ParseSpec(datagram, exporter, observedAt, old(templates.State()), templates.maxTemplates, dialect)
  {
    if |datagram| < dialect.HeaderLength() {
      return EMPTY_RESULT.(malformed := 1);
    }
    var (context, messageEnd, doubtful) := ReadHeader(datagram, exporter, observedAt, dialect);
    var desynchronised;
    result, desynchronised := WalkSets(datagram, dialect.HeaderLength(), messageEnd, templates, context);
    result := result.(malformed := result.malformed + (if doubtful then 1 else 0) +
                                   (if desynchronised then 1 else 0));
  }

  /** Handles the first of the sets still in the message; the message still comes to the same. */
  method ConsumeSet(first: FlowSet, ghost rest: seq<FlowSet>, templates: TemplateCache, context: Context,
                    before: ParseResult) returns (result: ParseResult)
    modifies templates
    ensures ApplySets(Progress(templates.State(), result), templates.maxTemplates, rest, context) ==
            ApplySets(Progress(old(templates.State()), before), templates.maxTemplates, [first] + rest, context)
  {
    result := DispatchSet(first, templates, context, before);
    assert ([first] + rest)[1..] == rest;
  }

  method DispatchSet(s: FlowSet, templates: TemplateCache, context: Context, before: ParseResult)
    returns (result: ParseResult)
    modifies templates
    ensures Progress(templates.State(), result) ==
            ApplySet(Progress(old(templates.State()), before), templates.maxTemplates, s, context)
  {
    result := before;
    var dialect := context.protocolVersion;
    if s.id == dialect.TemplateSetId() {
      var malformed := ReadTemplateSet(s.body, context.exporter, context.observationDomain, templates, dialect);
      result := result.(malformed := result.malformed + malformed);
    } else if s.id == dialect.OptionsTemplateSetId() {
    } else if s.id >= MIN_DATA_SET_ID {
      var template := templates.Get(TemplateKey(context.exporter, context.observationDomain, s.id));
      if template.Some? {
        var records, malformed := ReadDataSet(s.body, template.value, context);
        result := result.(records := result.records + records, malformed := result.malformed + malformed);
      } else {
        result := result.(pendingTemplates := result.pendingTemplates + 1);
      }
    } else {
      result := result.(malformed := result.malformed + 1);
    }
  }
}
