/** The encoder: builders for NetFlow v9 and IPFIX messages, laid out as the RFCs specify. */
module Datagrams {
  import opened Options
  import opened Radix
  import Sequences
  import opened Bytes
  import opened Fields
  import opened Netflow

  const EXPORT_TIME_SECONDS: nat := 1_785_067_200
  const SYS_UPTIME_MS: nat := 3_600_000

  datatype FieldSpec = FieldSpec(informationElement: nat, length: nat, enterprise: Option<nat>)

  /** Values keyed by information element. */
  type FieldValues = map<nat, seq<Byte>>

  // ---------- what the builders produce ----------

  /** The top bit of a 16-bit element number, set. */
  function Enterprised(ie: nat): nat { if ie < 0x8000 then ie + 0x8000 else ie }

  function FieldDef(field: FieldSpec, dialect: Dialect): seq<Byte>
  {
    if field.enterprise.Some? && dialect.Ipfix? then
      U16(Enterprised(field.informationElement)) + U16(field.length) + U32(field.enterprise.value)
    else U16(field.informationElement) + U16(field.length)
  }

  function FieldDefs(fields: seq<FieldSpec>, dialect: Dialect): seq<Byte>
  {
    if fields == [] then [] else FieldDef(fields[0], dialect) + FieldDefs(fields[1..], dialect)
  }

  function TemplateBody(templateId: nat, fields: seq<FieldSpec>, dialect: Dialect): seq<Byte>
  {
    U16(templateId) + U16(|fields|) + FieldDefs(fields, dialect)
  }

  function TemplateSet(templateId: nat, fields: seq<FieldSpec>, dialect: Dialect): seq<Byte>
  {
    var body := TemplateBody(templateId, fields, dialect);
    U16(dialect.TemplateSetId()) + U16(|body| + 4) + body
  }

  /** A value made to fit its field: cut on the left when longer, zero-padded there when shorter. */
  function Fit(value: seq<Byte>, length: nat): (r: seq<Byte>)
    ensures |r| == length
  {
    if |value| >= length then value[|value| - length..] else Zeros(length - |value|) + value
  }

  /** The bytes a record carries for one field, without any length prefix. */
  function ValueOf(field: FieldSpec, values: FieldValues): seq<Byte>
  {
    var value := if field.informationElement in values then values[field.informationElement] else [];
    if field.length == VARIABLE_LENGTH then value else Fit(value, field.length)
  }

  function EncodeValue(field: FieldSpec, values: FieldValues): seq<Byte>
  {
    var value := ValueOf(field, values);
    if field.length == VARIABLE_LENGTH then [|value| % 256] + value else value
  }

  function Parts(fields: seq<FieldSpec>, values: FieldValues): (parts: seq<seq<Byte>>)
    ensures |parts| == |fields|
  {
    if fields == [] then [] else [EncodeValue(fields[0], values)] + Parts(fields[1..], values)
  }

  function Record(fields: seq<FieldSpec>, values: FieldValues): seq<Byte>
  {
    Concat(Parts(fields, values))
  }

  function Padding(bodyLength: nat): nat { (4 - ((bodyLength + 4) % 4)) % 4 }

  function DataBody(records: seq<seq<Byte>>): seq<Byte>
  {
    Concat(records) + Zeros(Padding(|Concat(records)|))
  }

  function DataSet(templateId: nat, records: seq<seq<Byte>>): seq<Byte>
  {
    U16(templateId) + U16(|DataBody(records)| + 4) + DataBody(records)
  }

  function IpfixHeader(bodyLength: nat, domain: nat): (h: seq<Byte>)
    ensures |h| == 16
  {
    U16(10) + U16(bodyLength + 16) + U32(EXPORT_TIME_SECONDS) + U32(1) + U32(domain)
  }

  function V9Header(sourceId: nat): (h: seq<Byte>)
    ensures |h| == 20
  {
    U16(9) + U16(1) + U32(SYS_UPTIME_MS) + U32(EXPORT_TIME_SECONDS) + U32(1) + U32(sourceId)
  }

  function Message(sets: seq<seq<Byte>>, domain: nat, dialect: Dialect): seq<Byte>
  {
    (if dialect.Ipfix? then IpfixHeader(|Concat(sets)|, domain) else V9Header(domain)) + Concat(sets)
  }

  // ---------- the builders ----------

  /** One big-endian integer; the range check of the buffer write is the precondition. */
  method BuildUint(value: nat, length: nat) returns (bytes: seq<Byte>)
    requires value < Pow(256, length)
    ensures bytes == Uint(value, length)
  {
    var buffer := new Byte[length](_ => 0);
    WriteUint(buffer, value, 0, length);
    bytes := buffer[..];
  }

  method BuildU16(value: nat) returns (bytes: seq<Byte>)
    requires value < 0x1_0000
    ensures bytes == U16(value)
  {
    Widths();
    UintIsU16(value);
    bytes := BuildUint(value, 2);
  }

  method BuildU32(value: nat) returns (bytes: seq<Byte>)
    requires value < 0x1_0000_0000
    ensures bytes == U32(value)
  {
    Widths();
    UintIsU32(value);
    bytes := BuildUint(value, 4);
  }

  ghost predicate Writable(field: FieldSpec)
  {
    field.informationElement < 0x1_0000 && field.length < 0x1_0000 &&
    (field.enterprise.Some? ==> field.enterprise.value < 0x1_0000_0000)
  }

  method BuildFieldDef(field: FieldSpec, dialect: Dialect) returns (bytes: seq<Byte>)
    requires Writable(field)
    ensures bytes == FieldDef(field, dialect)
  {
    var length := BuildU16(field.length);
    if field.enterprise.Some? && dialect.Ipfix? {
      var element := BuildU16(Enterprised(field.informationElement));
      var enterprise := BuildU32(field.enterprise.value);
      return element + length + enterprise;
    }
    var element := BuildU16(field.informationElement);
    return element + length;
  }

  lemma FieldDefNext(parts: seq<Byte>, part: seq<Byte>, fields: seq<FieldSpec>, i: nat, dialect: Dialect)
    requires i < |fields| && part == FieldDef(fields[i], dialect)
    ensures parts + FieldDefs(fields[i..], dialect) == (parts + part) + FieldDefs(fields[i + 1..], dialect)
  {
    assert fields[i..][0] == fields[i] && fields[i..][1..] == fields[i + 1..];
    Sequences.Regroup(parts, part, FieldDefs(fields[i + 1..], dialect));
  }

  method BuildTemplateSet(templateId: nat, fields: seq<FieldSpec>, dialect: Dialect) returns (bytes: seq<Byte>)
    requires templateId < 0x1_0000 && |fields| < 0x1_0000
    requires forall i :: 0 <= i < |fields| ==> Writable(fields[i])
    requires |TemplateBody(templateId, fields, dialect)| + 4 < 0x1_0000
    ensures bytes == TemplateSet(templateId, fields, dialect)
  {
    var parts: seq<Byte> := [];
    for i := 0 to |fields|
      invariant parts + FieldDefs(fields[i..], dialect) == FieldDefs(fields, dialect)
    {
      var part := BuildFieldDef(fields[i], dialect);
      FieldDefNext(parts, part, fields, i, dialect);
      parts := parts + part;
    }
    assert parts == FieldDefs(fields, dialect);
    bytes := FinishTemplateSet(templateId, |fields|, parts, dialect);
  }

  method FinishTemplateSet(templateId: nat, count: nat, parts: seq<Byte>, dialect: Dialect) returns (bytes: seq<Byte>)
    requires templateId < 0x1_0000 && count < 0x1_0000 && |parts| + 8 < 0x1_0000
    ensures bytes == U16(dialect.TemplateSetId()) + U16(|parts| + 8) + (U16(templateId) + U16(count) + parts)
  {
    var id := BuildU16(templateId);
    var n := BuildU16(count);
    var body := id + n + parts;
    var setId := BuildU16(dialect.TemplateSetId());
    var setLength := BuildU16(|body| + 4);
    bytes := setId + setLength + body;
  }

  method BuildValue(field: FieldSpec, values: FieldValues) returns (bytes: seq<Byte>)
    requires field.length == VARIABLE_LENGTH ==> |ValueOf(field, values)| < 256
    ensures bytes == EncodeValue(field, values)
  {
    var present := field.informationElement in values;
    if field.length == VARIABLE_LENGTH {
      var payload := if present then values[field.informationElement] else [];
      return [|payload|] + payload;
    }
    if !present {
      assert Zeros(field.length) + [] == Zeros(field.length);
      return Zeros(field.length);
    }
    var value := values[field.informationElement];
    if |value| == field.length {
      return value;
    } else if |value| > field.length {
      return value[|value| - field.length..];
    }
    return Zeros(field.length - |value|) + value;
  }

  method AppendValue(before: seq<Byte>, fields: seq<FieldSpec>, i: nat, values: FieldValues) returns (bytes: seq<Byte>)
    requires i < |fields| && (fields[i].length == VARIABLE_LENGTH ==> |ValueOf(fields[i], values)| < 256)
    ensures bytes + Record(fields[i + 1..], values) == before + Record(fields[i..], values)
  {
    var part := BuildValue(fields[i], values);
    bytes := before + part;
    ghost var tail := Record(fields[i + 1..], values);
    assert fields[i..][0] == fields[i] && fields[i..][1..] == fields[i + 1..];
    assert (before + part) + tail == before + (part + tail);
  }

  method BuildRecord(fields: seq<FieldSpec>, values: FieldValues) returns (bytes: seq<Byte>)
    requires forall i :: 0 <= i < |fields| && fields[i].length == VARIABLE_LENGTH ==> |ValueOf(fields[i], values)| < 256
    ensures bytes == Record(fields, values)
  {
    bytes := [];
    for i := 0 to |fields|
      invariant bytes + Record(fields[i..], values) == Record(fields, values)
    {
      bytes := AppendValue(bytes, fields, i, values);
    }
  }

  method BuildDataSet(templateId: nat, records: seq<seq<Byte>>) returns (bytes: seq<Byte>)
    requires templateId < 0x1_0000 && |DataBody(records)| + 4 < 0x1_0000
    ensures bytes == DataSet(templateId, records)
  {
    var body := Concat(records);
    var unpadded := |body| + 4;
    var padding := (4 - (unpadded % 4)) % 4;
    var id := BuildU16(templateId);
    var length := BuildU16(unpadded + padding);
    bytes := id + length + body + Zeros(padding);
  }

  method BuildIpfixMessage(sets: seq<seq<Byte>>, observationDomain: nat) returns (bytes: seq<Byte>)
    requires |Concat(sets)| + 16 < 0x1_0000 && observationDomain < 0x1_0000_0000
    ensures bytes == Message(sets, observationDomain, Ipfix)
  {
    var body := Concat(sets);
    var header := new Byte[16](_ => 0);
    Widths();
    WriteUint(header, 10, 0, 2);
    WriteUint(header, |body| + 16, 2, 2);
    UintIsU16(10);
    UintIsU16(|body| + 16);
    assert header[..4] == U16(10) + U16(|body| + 16);
    WriteUint(header, EXPORT_TIME_SECONDS, 4, 4);
    UintIsU32(EXPORT_TIME_SECONDS);
    assert header[..8] == U16(10) + U16(|body| + 16) + U32(EXPORT_TIME_SECONDS);
    WriteUint(header, 1, 8, 4);
    UintIsU32(1);
    assert header[..12] == U16(10) + U16(|body| + 16) + U32(EXPORT_TIME_SECONDS) + U32(1);
    WriteUint(header, observationDomain, 12, 4);
    UintIsU32(observationDomain);
    assert header[..] == IpfixHeader(|body|, observationDomain);
    bytes := header[..] + body;
  }

  method BuildNetflowV9Message(sets: seq<seq<Byte>>, sourceId: nat) returns (bytes: seq<Byte>)
    requires sourceId < 0x1_0000_0000
    ensures bytes == Message(sets, sourceId, V9)
  {
    var body := Concat(sets);
    var header := new Byte[20](_ => 0);
    Widths();
    WriteUint(header, 9, 0, 2);
    WriteUint(header, 1, 2, 2);
    WriteUint(header, SYS_UPTIME_MS, 4, 4);
    WriteUint(header, EXPORT_TIME_SECONDS, 8, 4);
    WriteUint(header, 1, 12, 4);
    WriteUint(header, sourceId, 16, 4);
    UintIsU16(9);
    UintIsU16(1);
    UintIsU32(SYS_UPTIME_MS);
    UintIsU32(EXPORT_TIME_SECONDS);
    UintIsU32(1);
    UintIsU32(sourceId);
    assert header[..] == V9Header(sourceId);
    bytes := header[..] + body;
  }
}
