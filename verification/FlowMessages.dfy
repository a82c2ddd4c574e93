/**
 What a whole message comes to: its header, what each kind of set does, and what the records of a
 message that was built say. Numbers of sets, offsets and lengths are those of RFC 3954 and RFC 7011.
 */
module FlowMessages {
  import opened Options
  import opened Radix
  import opened Bytes
  import opened Fields
  import opened Templates
  import opened Netflow
  import opened NetflowTotality
  import opened Datagrams
  import opened RoundTrip
  import opened FlowAttributes

  // ---------- numbers ----------

  /** A number of up to six bytes, or of eight, is read whole; of any other width, modulo 2^48. */
  lemma ReadUnsignedExactly(value: seq<Byte>)
    ensures ReadUnsigned(value) ==
            if |value| <= 6 || |value| == 8 then ReadUint(value) else ReadUint(value) % 0x1_0000_0000_0000
  {
    if |value| > 6 && |value| != 8 {
      var hi, lo := value[..|value| - 6], value[|value| - 6..];
      assert value == hi + lo;
      ValueConcat(256, hi, lo);
      ValueBound(256, lo);
      Widths();
      DivModUnique(ReadUint(hi), 0x1_0000_0000_0000, ReadUint(lo));
    }
  }

  /** An NTP timestamp: seconds since 1900 and a binary fraction, in Unix milliseconds; none without
      its eight bytes, and none at zero seconds. */
  lemma NtpSays(value: seq<Byte>)
    ensures NtpToUnixMs(value) ==
            if |value| < 8 || ReadUint(value[..4]) == 0 then None
            else Some((ReadUint(value[..4]) - 2_208_988_800) * 1000 + ReadUint(value[4..8]) * 1000 / 0x1_0000_0000)
  {
    if |value| >= 8 {
      ReadU32IsReadAt(value, 0);
      ReadU32IsReadAt(value, 4);
    }
  }

  // ---------- the header ----------

  /** Where the header's numbers stand. A NetFlow v9 message gives the exporter's boot time and runs to its
      end; an IPFIX message ends where it declares if that is possible, and is doubted otherwise. */
  lemma HeaderSays(datagram: seq<Byte>, exporter: string, observedAt: int, dialect: Dialect)
    requires |datagram| >= if dialect.V9? then 20 else 16
    ensures var (c, end, doubtful) := ReadHeader(datagram, exporter, observedAt, dialect);
            c.exporter == exporter && c.protocolVersion == dialect && c.observedAt == observedAt &&
            (dialect.V9? ==>
               c.observationDomain == ReadAt(datagram, 16, 4) && end == |datagram| && !doubtful &&
               c.bootMs == ReadAt(datagram, 8, 4) * 1000 - ReadAt(datagram, 4, 4)) &&
            (dialect.Ipfix? ==>
               var declared := ReadAt(datagram, 2, 2);
               c.observationDomain == ReadAt(datagram, 12, 4) && c.bootMs == 0 &&
               (doubtful <==> !(16 <= declared <= |datagram|)) && end == if doubtful then |datagram| else declared)
  {
    if dialect.V9? {
      ReadU32IsReadAt(datagram, 16);
      ReadU32IsReadAt(datagram, 8);
      ReadU32IsReadAt(datagram, 4);
    } else {
      ReadU32IsReadAt(datagram, 12);
      ReadU16IsReadAt(datagram, 2);
    }
  }

  /** A datagram too short for its header is malformed, once, and does nothing. */
  lemma TooShort(datagram: seq<Byte>, exporter: string, observedAt: int, cache: CacheState, limit: nat,
                 dialect: Dialect)
    requires |datagram| < if dialect.V9? then 20 else 16
    ensures ParseSpec(datagram, exporter, observedAt, cache, limit, dialect) ==
            Progress(cache, ParseResult([], 0, 1))
  {
  }

  // ---------- the sets ----------

  predicate IsTemplateSet(id: nat, dialect: Dialect) { if dialect.V9? then id == 0 else id == 2 }

  predicate IsOptionsSet(id: nat, dialect: Dialect) { if dialect.V9? then id == 1 else id == 3 }

  /** What each kind of set does that is not data under a known template. */
  lemma SetEffects(p: Progress, limit: nat, s: FlowSet, context: Context)
    ensures var d, r := context.protocolVersion, p.result;
            var after := ApplySet(p, limit, s, context);
            (IsTemplateSet(s.id, d) ==>
               after.result == r.(malformed := r.malformed + if TemplatesIn(s.body, 0, d).1 then 1 else 0)) &&
            (IsOptionsSet(s.id, d) ==> after == p) &&
            (s.id >= 256 && Lookup(p.cache, TemplateKey(context.exporter, context.observationDomain, s.id)).None? ==>
               after == p.(result := r.(pendingTemplates := r.pendingTemplates + 1))) &&
            (s.id < 256 && !IsTemplateSet(s.id, d) && !IsOptionsSet(s.id, d) ==>
               after == p.(result := r.(malformed := r.malformed + 1)))
  {
  }

  /** Data under a known template adds its records, in order, each saying what its field values say. */
  lemma DataSetSays(p: Progress, limit: nat, s: FlowSet, context: Context, template: Template)
    requires s.id >= 256
    requires Lookup(p.cache, TemplateKey(context.exporter, context.observationDomain, s.id)) == Some(template)
    ensures var after, d := ApplySet(p, limit, s, context), DataRecords(s.body, 0, template);
            after.cache == p.cache && after.result.pendingTemplates == p.result.pendingTemplates &&
            after.result.malformed == p.result.malformed + d.malformed &&
            |after.result.records| == |p.result.records| + |d.records| &&
            after.result.records[..|p.result.records|] == p.result.records &&
            forall k :: 0 <= k < |d.records| ==>
              |d.records[k]| == |template.fields| &&
              Says(after.result.records[|p.result.records| + k], template.fields, d.records[k], context)
  {
    var d := DataRecords(s.body, 0, template);
    forall k | 0 <= k < |d.records|
      ensures |d.records[k]| == |template.fields|
      ensures Says(ToRecord(template.fields, d.records[k], context), template.fields, d.records[k], context)
    {
      RecordsHaveAllFields(s.body, 0, template, k);
      RecordSays(template.fields, d.records[k], context);
    }
  }

  lemma {:induction false} RecordsHaveAllFields(body: seq<Byte>, offset: nat, template: Template, k: nat)
    requires k < |DataRecords(body, offset, template).records|
    ensures |DataRecords(body, offset, template).records[k]| == |template.fields|
    decreases |body| - offset
  {
    var layout := RecordLayout(body, offset, template.fields).value;
    if k > 0 {
      RecordsHaveAllFields(body, layout.next, template, k - 1);
    }
  }

  /** A message is malformed once for each malformation its sets report, once more if its length is doubted,
      and once more if there is room for a set header where no set is possible. */
  lemma MalformedAddsUp(datagram: seq<Byte>, exporter: string, observedAt: int, cache: CacheState, limit: nat,
                        dialect: Dialect)
    requires |datagram| >= if dialect.V9? then 20 else 16
    ensures var h: nat := if dialect.V9? then 20 else 16;
            var (context, end, doubtful) := ReadHeader(datagram, exporter, observedAt, dialect);
            var sets := SetsIn(datagram, h, end).0;
            var of, all := ApplySets(Progress(cache, EMPTY_RESULT), limit, sets, context),
                           ParseSpec(datagram, exporter, observedAt, cache, limit, dialect);
            all.cache == of.cache && all.result.records == of.result.records &&
            all.result.pendingTemplates == of.result.pendingTemplates &&
            all.result.malformed == of.result.malformed + (if doubtful then 1 else 0) +
                                    if h + |EncodeSets(sets)| + 4 <= end then 1 else 0
  {
    var end := ReadHeader(datagram, exporter, observedAt, dialect).1;
    WalkStopsWhere(datagram, dialect.HeaderLength(), end);
  }

  // ---------- built messages ----------

  /** What the records of a built message say, for any records, any template and either dialect: what was sent,
      attribute by attribute. */
  lemma MessageSays(templateId: nat, fields: seq<FieldSpec>, records: seq<FieldValues>, domain: nat, dialect: Dialect,
                    exporter: string, observedAt: int, cache: CacheState, limit: nat)
    requires Sendable(templateId, fields, records, dialect) && domain < 0x1_0000_0000
    requires dialect.Ipfix? ==> |SelfContained(templateId, fields, records, domain, dialect)| < 0x1_0000
    requires Separable(fields, records, MinRecord(LearnedTemplate(templateId, fields, dialect)),
                       PaddingOf(fields, records))
    ensures var result := ParseSpec(SelfContained(templateId, fields, records, domain, dialect), exporter, observedAt,
                                    cache, limit, dialect).result;
            var bootMs := if dialect.V9? then 1_785_067_200 * 1000 - 3_600_000 else 0;
            result.malformed == 0 && result.pendingTemplates == 0 && |result.records| == |records| &&
            forall k :: 0 <= k < |records| ==>
              |Values(fields, records[k])| == |fields| &&
              Says(result.records[k], LearnedAll(fields, dialect), Values(fields, records[k]),
                   Context(exporter, domain, dialect, bootMs, observedAt))
  {
    MessageRoundTrip(templateId, fields, records, domain, dialect, exporter, observedAt, cache, limit);
    forall k | 0 <= k < |records| ensures AllValues(fields, records)[k] == Values(fields, records[k]) {
      AllValuesAt(fields, records, k);
    }
    var context := MessageContext(exporter, domain, observedAt, dialect);
    forall k | 0 <= k < |records|
      ensures Says(ToRecord(LearnedAll(fields, dialect), Values(fields, records[k]), context),
                   LearnedAll(fields, dialect), Values(fields, records[k]), context)
    {
      RecordSays(LearnedAll(fields, dialect), Values(fields, records[k]), context);
    }
  }

  lemma {:induction false} AllValuesAt(fields: seq<FieldSpec>, records: seq<FieldValues>, k: nat)
    requires k < |records|
    ensures AllValues(fields, records)[k] == Values(fields, records[k])
  {
    if k > 0 { AllValuesAt(fields, records[1..], k - 1); }
  }

  /** When records can be told from padding, in the sender's terms: with no variable-length field, when a record
      has bytes and the padding is shorter than one; with one, when the padding is shorter than the number of
      fields and the last record with it is not. */
  lemma SeparableMeans(templateId: nat, fields: seq<FieldSpec>, records: seq<FieldValues>, dialect: Dialect,
                       padding: nat)
    requires fields != [] && records != []
    ensures var size := |Record(fields, records[|records| - 1])|;
            Separable(fields, records, MinRecord(LearnedTemplate(templateId, fields, dialect)), padding) <==>
            if forall i :: 0 <= i < |fields| ==> fields[i].length != 0xffff then size > 0 && padding < size
            else padding < |fields| <= size + padding
  {
    var learned := LearnedAll(fields, dialect);
    forall i | 0 <= i < |fields| ensures learned[i].length == fields[i].length { LearnedAt(fields, dialect, i); }
    if !HasVariable(learned) {
      LearnedTotal(fields, dialect, records[|records| - 1]);
    }
  }

  // ---------- definitions and empty records ----------

  /** One field definition: in NetFlow v9 the element is all sixteen bits; in IPFIX the first bit announces an
      enterprise number behind the length (section 3.2 of RFC 7011). */
  lemma DefinitionReads(body: seq<Byte>, offset: nat, dialect: Dialect)
    ensures var read := FieldSpecs(body, offset, 1, dialect);
            if offset + 4 > |body| then read == None
            else
              var element, length := ReadAt(body, offset, 2), ReadAt(body, offset + 2, 2);
              if dialect == V9 || element < 0x8000
              then read == Some(([TemplateField(element, length, None)], offset + 4))
              else if offset + 8 > |body| then read == None
              else
                var field := TemplateField(element - 0x8000, length, Some(ReadAt(body, offset + 4, 4)));
                read == Some(([field], offset + 8))
  {
    if offset + 4 <= |body| {
      ReadU16IsReadAt(body, offset);
      ReadU16IsReadAt(body, offset + 2);
      assert FieldSpecs(body, offset + 4, 0, dialect) == Some(([], offset + 4));
      var plain := TemplateField(ReadU16(body, offset), ReadU16(body, offset + 2), None);
      assert [plain] + [] == [plain];
      if offset + 8 <= |body| {
        ReadU32IsReadAt(body, offset + 4);
        assert FieldSpecs(body, offset + 8, 0, dialect) == Some(([], offset + 8));
        var owned := TemplateField(ReadU16(body, offset) % 0x8000, plain.length, Some(ReadU32(body, offset + 4)));
        assert [owned] + [] == [owned];
      }
    }
  }

  /** Fewer than four bytes behind the last template of a set are padding. */
  lemma TemplatePadding(body: seq<Byte>, offset: nat, dialect: Dialect)
    requires |body| < offset + 4
    ensures TemplatesIn(body, offset, dialect) == ([], false)
  {
  }

  ghost predicate Widthless(fields: seq<TemplateField>)
  {
    forall i :: 0 <= i < |fields| ==> fields[i].length == 0
  }

  function Empties(n: nat): seq<seq<Byte>> { seq(n, _ => []) }

  lemma OneMoreEmpty(n: nat)
    ensures [[]] + Empties(n) == Empties(n + 1)
  {
    var empty: seq<Byte> := [];
    forall k | 0 <= k < n + 1 ensures ([empty] + Empties(n))[k] == Empties(n + 1)[k] {
    }
  }

  lemma {:induction false} WidthlessLayout(body: seq<Byte>, offset: nat, fields: seq<TemplateField>)
    requires offset <= |body| && Widthless(fields)
    ensures RecordLayout(body, offset, fields) == Some(Layout(Empties(|fields|), offset))
    decreases |fields|
  {
    if fields == [] {
      assert Empties(0) == [];
    } else {
      WidthlessLayout(body, offset, fields[1..]);
      assert FieldSpan(body, offset, fields[0]) == Some((offset, offset));
      assert body[offset..offset] == [];
      OneMoreEmpty(|fields| - 1);
    }
  }

  lemma {:induction false} WidthlessTotal(fields: seq<TemplateField>)
    requires Widthless(fields)
    ensures FixedLength(fields) == Some(0)
  {
    if fields != [] { WidthlessTotal(fields[..|fields| - 1]); }
  }

  /** Under a template whose fields have no width, a set that holds anything gives one record of empty values and
      is malformed; an empty one gives none. */
  lemma EmptyRecord(body: seq<Byte>, template: Template)
    requires Widthless(template.fields) && template.fixedLength == FixedLength(template.fields)
    ensures DataRecords(body, 0, template) ==
            if body == [] then Decoded([], 0) else Decoded([Empties(|template.fields|)], 1)
  {
    WidthlessLayout(body, 0, template.fields);
    WidthlessTotal(template.fields);
  }

  // ---------- one field ----------

  /** How a value stands in a record: bare when the template gives its length; else behind one byte of length, or
      behind 255 and two bytes of length (section 7 of RFC 7011). */
  ghost predicate Written(wire: seq<Byte>, value: seq<Byte>, length: nat)
  {
    if length != 0xffff then wire == value && |value| == length
    else (|value| < 255 && wire == [|value|] + value) ||
         (|value| < 0x1_0000 && wire == [255] + U16(|value|) + value)
  }

  /** A field is stepped over whole, its value is what was written, and no cut before its end goes unnoticed. */
  lemma FieldOnWire(before: seq<Byte>, wire: seq<Byte>, value: seq<Byte>, after: seq<Byte>, field: TemplateField,
                    m: nat)
    requires Written(wire, value, field.length) && |before| <= m < |before + wire|
    ensures |value| <= |wire| && (before + wire + after)[|before + wire| - |value|..|before + wire|] == value
    ensures FieldSpan(before + wire + after, |before|, field) == Some((|before + wire| - |value|, |before + wire|))
    ensures FieldSpan((before + wire + after)[..m], |before|, field) == None
  {
    var body := before + wire + after;
    assert body[|before + wire| - |value|..|before + wire|] == value by { ValueAtEnd(before, wire, value, after); }
    if field.length == 0xffff {
      assert body[|before|] == wire[0];
      if wire[0] == 255 {
        assert wire == [255] + (U16(|value|) + value);
        assert body == (before + [255]) + U16(|value|) + (value + after);
        ReadU16Written(before + [255], |value|, value + after);
      }
    }
    SpanTruncated(body, m, |before|, field);
  }

  lemma ValueAtEnd(before: seq<Byte>, wire: seq<Byte>, value: seq<Byte>, after: seq<Byte>)
    requires |value| <= |wire| && wire[|wire| - |value|..] == value
    ensures (before + wire + after)[|before + wire| - |value|..|before + wire|] == value
  {
    var body := before + wire + after;
    forall k | 0 <= k < |value| ensures body[|before + wire| - |value| + k] == value[k] {
      assert value[k] == wire[|wire| - |value|..][k];
    }
  }

  lemma {:induction false} LearnedAt(fields: seq<FieldSpec>, dialect: Dialect, i: nat)
    requires i < |fields|
    ensures LearnedAll(fields, dialect)[i] == Learned(fields[i], dialect)
  {
    if i > 0 { LearnedAt(fields[1..], dialect, i - 1); }
  }
}
