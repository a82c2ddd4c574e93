/**
 The walker undoes the builders: a built message, parsed against any cache, yields exactly
 the records that were encoded.
 */
module RoundTrip {
  import opened Options
  import opened Radix
  import Sequences
  import opened Bytes
  import opened Fields
  import opened Templates
  import opened Netflow
  import opened NetflowTotality
  import opened Datagrams

  // ---------- template sets ----------

  /** What the walker learns of a field the builder wrote. */
  function Learned(field: FieldSpec, dialect: Dialect): TemplateField
  {
    if field.enterprise.Some? && dialect.Ipfix?
    then TemplateField(field.informationElement % 0x8000, field.length, field.enterprise)
    else TemplateField(field.informationElement, field.length, None)
  }

  function LearnedAll(fields: seq<FieldSpec>, dialect: Dialect): (r: seq<TemplateField>)
    ensures |r| == |fields|
  {
    if fields == [] then [] else [Learned(fields[0], dialect)] + LearnedAll(fields[1..], dialect)
  }

  function LearnedTemplate(templateId: nat, fields: seq<FieldSpec>, dialect: Dialect): Template
  {
    Template(templateId, LearnedAll(fields, dialect), FixedLength(LearnedAll(fields, dialect)))
  }

  /** A plain IPFIX element number must leave the enterprise bit clear; v9 has no such bit. */
  ghost predicate Readable(field: FieldSpec, dialect: Dialect)
  {
    Writable(field) && (dialect.Ipfix? && field.enterprise.None? ==> field.informationElement < 0x8000)
  }

  ghost predicate AllReadable(fields: seq<FieldSpec>, dialect: Dialect)
  {
    forall i :: 0 <= i < |fields| ==> Readable(fields[i], dialect)
  }

  function ShiftFields(r: Option<(seq<TemplateField>, nat)>, k: nat): Option<(seq<TemplateField>, int)>
  {
    match r
    case None => None
    case Some((fields, next)) => Some((fields, next - k))
  }

  /** Definitions read from `i` in one body are those read `k` bytes on, at `i + k`, in another. */
  ghost predicate SpecsAlike(a: seq<Byte>, i: nat, b: seq<Byte>, k: nat, count: nat, dialect: Dialect)
  {
    FieldSpecs(a, i, count, dialect) == ShiftFields(FieldSpecs(b, i + k, count, dialect), k)
  }

  predicate IsEnterprise(raw: nat, dialect: Dialect) { dialect.EnterpriseCapable() && raw >= 0x8000 }

  lemma PlainSpecAlike(a: seq<Byte>, i: nat, b: seq<Byte>, k: nat, count: nat, dialect: Dialect)
    requires count > 0 && i + 4 <= |a| && i + k + 4 <= |b| && !IsEnterprise(ReadU16(a, i), dialect)
    requires ReadU16(a, i) == ReadU16(b, i + k) && ReadU16(a, i + 2) == ReadU16(b, i + k + 2)
    requires SpecsAlike(a, i + 4, b, k, count - 1, dialect)
    ensures SpecsAlike(a, i, b, k, count, dialect)
  {
  }

  lemma EnterpriseSpecAlike(a: seq<Byte>, i: nat, b: seq<Byte>, k: nat, count: nat, dialect: Dialect)
    requires count > 0 && i + 8 <= |a| && i + k + 8 <= |b| && IsEnterprise(ReadU16(a, i), dialect)
    requires ReadU16(a, i) == ReadU16(b, i + k) && ReadU16(a, i + 2) == ReadU16(b, i + k + 2)
    requires ReadU32(a, i + 4) == ReadU32(b, i + k + 4) && SpecsAlike(a, i + 8, b, k, count - 1, dialect)
    ensures SpecsAlike(a, i, b, k, count, dialect)
  {
  }

  lemma {:induction false} FieldSpecsShifted(body: seq<Byte>, k: nat, offset: nat, count: nat, dialect: Dialect)
    requires k <= offset && k <= |body|
    ensures SpecsAlike(body[k..], offset - k, body, k, count, dialect)
    decreases count
  {
    if count > 0 && offset + 4 <= |body| {
      U16Shift(body, k, offset - k);
      U16Shift(body, k, offset - k + 2);
      if !IsEnterprise(ReadU16(body, offset), dialect) {
        FieldSpecsShifted(body, k, offset + 4, count - 1, dialect);
        PlainSpecAlike(body[k..], offset - k, body, k, count, dialect);
      } else if offset + 8 <= |body| {
        U32Shift(body, k, offset - k + 4);
        FieldSpecsShifted(body, k, offset + 8, count - 1, dialect);
        EnterpriseSpecAlike(body[k..], offset - k, body, k, count, dialect);
      }
    }
  }

  /** A field definition read at the front leaves the rest to be read behind it. */
  lemma FieldSpecsCons(def: seq<Byte>, post: seq<Byte>, field: TemplateField, count: nat, dialect: Dialect)
    requires count > 0 && FieldSpecs(post, 0, count - 1, dialect).Some?
    requires |def| == if field.enterprise.Some? then 8 else 4
    requires field.enterprise.Some? ==> dialect.EnterpriseCapable()
    requires var raw := ReadU16(def + post, 0);
             if field.enterprise.Some?
             then raw >= 0x8000 && field.informationElement == raw % 0x8000 &&
                  field.enterprise.value == ReadU32(def + post, 4)
             else field.informationElement == raw && (dialect.EnterpriseCapable() ==> raw < 0x8000)
    requires field.length == ReadU16(def + post, 2)
    ensures var rest := FieldSpecs(post, 0, count - 1, dialect).value;
            FieldSpecs(def + post, 0, count, dialect) == Some(([field] + rest.0, rest.1 + |def|))
  {
    var body := def + post;
    assert body[|def|..] == post;
    FieldSpecsShifted(body, |def|, |def|, count - 1, dialect);
  }

  lemma PlainFieldDef(field: FieldSpec, dialect: Dialect, post: seq<Byte>)
    requires Readable(field, dialect) && (field.enterprise.None? || dialect.V9?)
    ensures var body := FieldDef(field, dialect) + post;
            ReadU16(body, 0) == field.informationElement && ReadU16(body, 2) == field.length
  {
    var element, length := U16(field.informationElement), U16(field.length);
    var body := FieldDef(field, dialect) + post;
    assert body == [] + element + (length + post);
    ReadU16Written([], field.informationElement, length + post);
    assert body == element + length + post;
    ReadU16Written(element, field.length, post);
  }

  lemma EnterpriseFieldDef(field: FieldSpec, post: seq<Byte>)
    requires Readable(field, Ipfix) && field.enterprise.Some?
    ensures var body := FieldDef(field, Ipfix) + post;
            ReadU16(body, 0) == Enterprised(field.informationElement) && ReadU16(body, 2) == field.length &&
            ReadU32(body, 4) == field.enterprise.value
  {
    var element, length := U16(Enterprised(field.informationElement)), U16(field.length);
    var number := U32(field.enterprise.value);
    var body := FieldDef(field, Ipfix) + post;
    assert body == [] + element + (length + number + post);
    ReadU16Written([], Enterprised(field.informationElement), length + number + post);
    assert body == element + length + (number + post);
    ReadU16Written(element, field.length, number + post);
    assert body == (element + length) + number + post;
    ReadU32Written(element + length, field.enterprise.value, post);
  }

  /** One written field definition, then anything. */
  lemma OneFieldDef(field: FieldSpec, count: nat, dialect: Dialect, post: seq<Byte>)
    requires Readable(field, dialect) && count > 0
    requires FieldSpecs(post, 0, count - 1, dialect).Some?
    ensures var rest := FieldSpecs(post, 0, count - 1, dialect).value;
            FieldSpecs(FieldDef(field, dialect) + post, 0, count, dialect) ==
            Some(([Learned(field, dialect)] + rest.0, rest.1 + |FieldDef(field, dialect)|))
  {
    if field.enterprise.Some? && dialect.Ipfix? {
      EnterpriseFieldDef(field, post);
    } else {
      PlainFieldDef(field, dialect, post);
    }
    FieldSpecsCons(FieldDef(field, dialect), post, Learned(field, dialect), count, dialect);
  }

  lemma {:induction false} FieldDefsReadBack(fields: seq<FieldSpec>, dialect: Dialect)
    requires AllReadable(fields, dialect)
    ensures FieldSpecs(FieldDefs(fields, dialect), 0, |fields|, dialect) ==
            Some((LearnedAll(fields, dialect), |FieldDefs(fields, dialect)|))
  {
    if fields != [] {
      assert Readable(fields[0], dialect);
      FieldDefsReadBack(fields[1..], dialect);
      OneFieldDef(fields[0], |fields|, dialect, FieldDefs(fields[1..], dialect));
    }
  }

  lemma TemplateBodyReads(templateId: nat, fields: seq<FieldSpec>, dialect: Dialect)
    requires templateId < 0x1_0000 && |fields| < 0x1_0000
    ensures var body := TemplateBody(templateId, fields, dialect);
            ReadU16(body, 0) == templateId && ReadU16(body, 2) == |fields| && body[4..] == FieldDefs(fields, dialect)
  {
    var defs := FieldDefs(fields, dialect);
    var body := TemplateBody(templateId, fields, dialect);
    assert body == [] + U16(templateId) + (U16(|fields|) + defs);
    ReadU16Written([], templateId, U16(|fields|) + defs);
    ReadU16Written(U16(templateId), |fields|, defs);
  }

  /** A built template set defines exactly the template that was described. */
  lemma TemplateSetReadsBack(templateId: nat, fields: seq<FieldSpec>, dialect: Dialect)
    requires templateId < 0x1_0000 && 0 < |fields| < 0x1_0000 && AllReadable(fields, dialect)
    ensures TemplatesIn(TemplateBody(templateId, fields, dialect), 0, dialect) ==
            ([LearnedTemplate(templateId, fields, dialect)], false)
  {
    var body := TemplateBody(templateId, fields, dialect);
    TemplateBodyReads(templateId, fields, dialect);
    assert FieldSpecs(body, 4, |fields|, dialect) == Some((LearnedAll(fields, dialect), |body|)) by {
      FieldDefsReadBack(fields, dialect);
      FieldSpecsShifted(body, 4, 4, |fields|, dialect);
    }
    OneTemplate(body, dialect, LearnedAll(fields, dialect));
  }

  lemma OneTemplate(body: seq<Byte>, dialect: Dialect, fields: seq<TemplateField>)
    requires |body| >= 4 && ReadU16(body, 2) == |fields| > 0
    requires FieldSpecs(body, 4, |fields|, dialect) == Some((fields, |body|))
    ensures TemplatesIn(body, 0, dialect) ==
            ([Template(ReadU16(body, 0), fields, FixedLength(fields))], false)
  {
    var first := Template(ReadU16(body, 0), fields, FixedLength(fields));
    assert TemplatesIn(body, |body|, dialect) == ([], false);
    assert [first] + [] == [first];
  }

  // ---------- records ----------

  function Values(fields: seq<FieldSpec>, values: FieldValues): (r: seq<seq<Byte>>)
    ensures |r| == |fields|
  {
    if fields == [] then [] else [ValueOf(fields[0], values)] + Values(fields[1..], values)
  }

  /** Payloads short enough for the one-byte length the builder writes. */
  ghost predicate ShortPayloads(fields: seq<FieldSpec>, values: FieldValues)
  {
    forall i :: 0 <= i < |fields| && fields[i].length == VARIABLE_LENGTH ==> |ValueOf(fields[i], values)| <= 254
  }

  /** One encoded variable-length field is stepped over and returned whole exactly when its
      payload is at most 254 bytes: at 255 the length byte is taken for the long form's marker. */
  lemma VariableFieldReadsBackExactly(payload: seq<Byte>, field: TemplateField, post: seq<Byte>)
    requires |payload| <= 255 && field.length == VARIABLE_LENGTH
    ensures FieldSpan([|payload| % 256] + payload + post, 0, field) == Some((1, 1 + |payload|)) <==> |payload| <= 254
  {
  }

  /** `part` is how the wire carries `value` for `field`. */
  ghost predicate Frames(part: seq<Byte>, value: seq<Byte>, field: TemplateField)
  {
    |value| <= |part| && part[|part| - |value|..] == value &&
    if field.length == VARIABLE_LENGTH then |value| <= 254 && |part| == |value| + 1 && part[0] == |value|
    else |part| == |value| == field.length
  }

  ghost predicate AllFrame(parts: seq<seq<Byte>>, values: seq<seq<Byte>>, fields: seq<TemplateField>)
  {
    |parts| == |values| == |fields| && forall i :: 0 <= i < |parts| ==> Frames(parts[i], values[i], fields[i])
  }

  lemma FrameSpan(part: seq<Byte>, value: seq<Byte>, field: TemplateField, post: seq<Byte>, body: seq<Byte>)
    requires Frames(part, value, field) && body == part + post
    ensures FieldSpan(body, 0, field) == Some((|part| - |value|, |part|))
    ensures body[|part| - |value|..|part|] == value && body[|part|..] == post
  {
    if field.length == VARIABLE_LENGTH { assert body[0] == part[0]; }
  }

  lemma LayoutBehind(body: seq<Byte>, k: nat, fields: seq<TemplateField>, rest: Layout)
    requires k <= |body| && RecordLayout(body[k..], 0, fields) == Some(rest)
    ensures RecordLayout(body, k, fields) == Some(Layout(rest.values, k + rest.next))
  {
    LayoutShifted(body, k, k, fields);
  }

  lemma LayoutCons(body: seq<Byte>, start: nat, next: nat, field: TemplateField,
                   fields: seq<TemplateField>, rest: Layout)
    requires start <= next <= |body| && FieldSpan(body, 0, field) == Some((start, next))
    requires RecordLayout(body, next, fields) == Some(rest)
    ensures RecordLayout(body, 0, [field] + fields) == Some(Layout([body[start..next]] + rest.values, rest.next))
  {
    var all := [field] + fields;
    assert all[0] == field && all[1..] == fields;
  }

  /** A value in front of a record laid out behind it. */
  lemma ValueInFront(body: seq<Byte>, start: nat, n: nat, value: seq<Byte>, field: TemplateField, rest: seq<Byte>,
                     fields: seq<TemplateField>, layout: Layout)
    requires start <= n <= |body| && FieldSpan(body, 0, field) == Some((start, n))
    requires body[start..n] == value && body[n..] == rest
    requires RecordLayout(rest, 0, fields) == Some(layout)
    ensures RecordLayout(body, 0, [field] + fields) == Some(Layout([value] + layout.values, n + layout.next))
  {
    LayoutBehind(body, n, fields, layout);
    LayoutCons(body, start, n, field, fields, Layout(layout.values, n + layout.next));
  }

  lemma PartInFront(part: seq<Byte>, value: seq<Byte>, field: TemplateField, rest: seq<Byte>,
                    fields: seq<TemplateField>, layout: Layout, body: seq<Byte>)
    requires Frames(part, value, field) && body == part + rest
    requires RecordLayout(rest, 0, fields) == Some(layout)
    ensures RecordLayout(body, 0, [field] + fields) == Some(Layout([value] + layout.values, |part| + layout.next))
  {
    FrameSpan(part, value, field, rest, body);
    ValueInFront(body, |part| - |value|, |part|, value, field, rest, fields, layout);
  }

  /** Framed values written one after another are laid out as they were written. */
  lemma {:induction false} PartsReadBack(parts: seq<seq<Byte>>, values: seq<seq<Byte>>, fields: seq<TemplateField>,
                                         post: seq<Byte>, body: seq<Byte>)
    requires AllFrame(parts, values, fields) && body == Concat(parts) + post
    ensures RecordLayout(body, 0, fields) == Some(Layout(values, |Concat(parts)|))
    decreases |parts|
  {
    if parts != [] {
      var rest := Concat(parts[1..]) + post;
      Sequences.Regroup(parts[0], Concat(parts[1..]), post);
      AllFrameTail(parts, values, fields);
      PartsReadBack(parts[1..], values[1..], fields[1..], post, rest);
      PartInFront(parts[0], values[0], fields[0], rest, fields[1..], Layout(values[1..], |Concat(parts[1..])|), body);
      assert [values[0]] + values[1..] == values && [fields[0]] + fields[1..] == fields;
    }
  }

  lemma AllFrameTail(parts: seq<seq<Byte>>, values: seq<seq<Byte>>, fields: seq<TemplateField>)
    requires AllFrame(parts, values, fields) && parts != []
    ensures AllFrame(parts[1..], values[1..], fields[1..]) && Frames(parts[0], values[0], fields[0])
  {
  }

  lemma {:induction false} PartsFrame(fields: seq<FieldSpec>, values: FieldValues, dialect: Dialect)
    requires ShortPayloads(fields, values)
    ensures AllFrame(Parts(fields, values), Values(fields, values), LearnedAll(fields, dialect))
  {
    if fields != [] {
      PartsFrame(fields[1..], values, dialect);
      ValueFrames(fields[0], values, dialect);
      AllFrameCons(EncodeValue(fields[0], values), ValueOf(fields[0], values), Learned(fields[0], dialect),
                   Parts(fields[1..], values), Values(fields[1..], values), LearnedAll(fields[1..], dialect));
    }
  }

  lemma AllFrameCons(part: seq<Byte>, value: seq<Byte>, field: TemplateField,
                     parts: seq<seq<Byte>>, values: seq<seq<Byte>>, fields: seq<TemplateField>)
    requires Frames(part, value, field) && AllFrame(parts, values, fields)
    ensures AllFrame([part] + parts, [value] + values, [field] + fields)
  {
  }

  lemma ValueFrames(field: FieldSpec, values: FieldValues, dialect: Dialect)
    requires field.length == VARIABLE_LENGTH ==> |ValueOf(field, values)| <= 254
    ensures Frames(EncodeValue(field, values), ValueOf(field, values), Learned(field, dialect))
  {
  }

  /** An encoded record is laid out as the values it was built from. */
  lemma RecordReadsBack(fields: seq<FieldSpec>, values: FieldValues, dialect: Dialect,
                        post: seq<Byte>, body: seq<Byte>)
    requires ShortPayloads(fields, values) && body == Record(fields, values) + post
    ensures RecordLayout(body, 0, LearnedAll(fields, dialect)) ==
            Some(Layout(Values(fields, values), |Record(fields, values)|))
  {
    PartsFrame(fields, values, dialect);
    PartsReadBack(Parts(fields, values), Values(fields, values), LearnedAll(fields, dialect), post, body);
  }

  // ---------- data sets ----------

  function Encodings(fields: seq<FieldSpec>, records: seq<FieldValues>): (r: seq<seq<Byte>>)
    ensures |r| == |records|
  {
    if records == [] then [] else [Record(fields, records[0])] + Encodings(fields, records[1..])
  }

  function AllValues(fields: seq<FieldSpec>, records: seq<FieldValues>): (r: seq<seq<seq<Byte>>>)
    ensures |r| == |records|
  {
    if records == [] then [] else [Values(fields, records[0])] + AllValues(fields, records[1..])
  }

  /** When the encoded records come back: there is something to tell a record from padding by,
      the padding is shorter than that, and the last record (with the padding) is not. */
  predicate Separable(fields: seq<FieldSpec>, records: seq<FieldValues>, minimum: nat, padding: nat)
  {
    (padding == 0 || padding < minimum) &&
    (records != [] ==> 0 < minimum <= |Record(fields, records[|records| - 1])| + padding)
  }

  lemma {:induction false} DataShifted(body: seq<Byte>, k: nat, offset: nat, template: Template)
    requires k <= offset && k <= |body|
    ensures DataRecords(body[k..], offset - k, template) == DataRecords(body, offset, template)
    decreases |body| - offset
  {
    if offset < |body| && |body| - offset >= MinRecord(template) {
      LayoutShifted(body, k, offset, template.fields);
      var layout := RecordLayout(body, offset, template.fields);
      if layout.Some? && layout.value.next > offset {
        DataShifted(body, k, layout.value.next, template);
      }
    }
  }

  lemma {:induction false} LearnedTotal(fields: seq<FieldSpec>, dialect: Dialect, values: FieldValues)
    requires !HasVariable(LearnedAll(fields, dialect))
    ensures |Record(fields, values)| == TotalLength(LearnedAll(fields, dialect))
    decreases |fields|
  {
    if fields != [] {
      var learned, tail := LearnedAll(fields, dialect), LearnedAll(fields[1..], dialect);
      assert learned[0].length != VARIABLE_LENGTH;
      assert forall i :: 0 <= i < |tail| ==> tail[i] == learned[i + 1];
      LearnedTotal(fields[1..], dialect, values);
      TotalCons(learned[0], tail);
    }
  }

  lemma {:induction false} TotalCons(first: TemplateField, rest: seq<TemplateField>)
    ensures TotalLength([first] + rest) == first.length + TotalLength(rest)
  {
    if rest == [] {
      assert [first][..0] == [];
    } else {
      assert ([first] + rest)[..|rest|] == [first] + rest[..|rest| - 1];
      TotalCons(first, rest[..|rest| - 1]);
    }
  }

  lemma {:induction false} VariableNotEmpty(fields: seq<FieldSpec>, dialect: Dialect, values: FieldValues)
    requires HasVariable(LearnedAll(fields, dialect))
    ensures |Record(fields, values)| >= 1
    decreases |fields|
  {
    var learned := LearnedAll(fields, dialect);
    var i :| 0 <= i < |learned| && learned[i].length == VARIABLE_LENGTH;
    if i > 0 {
      assert LearnedAll(fields[1..], dialect)[i - 1] == learned[i];
      VariableNotEmpty(fields[1..], dialect, values);
    }
  }

  /** An encoded record is empty exactly when its template gives nothing to measure it by. */
  lemma EmptyRecords(templateId: nat, fields: seq<FieldSpec>, dialect: Dialect, values: FieldValues)
    requires fields != []
    ensures Record(fields, values) == [] <==> MinRecord(LearnedTemplate(templateId, fields, dialect)) == 0
  {
    if HasVariable(LearnedAll(fields, dialect)) {
      VariableNotEmpty(fields, dialect, values);
    } else {
      LearnedTotal(fields, dialect, values);
    }
  }

  lemma EncodingsCons(fields: seq<FieldSpec>, records: seq<FieldValues>)
    requires records != []
    ensures Concat(Encodings(fields, records)) ==
            Record(fields, records[0]) + Concat(Encodings(fields, records[1..]))
  {
    var all, tail := Encodings(fields, records), Encodings(fields, records[1..]);
    assert all[1..] == tail;
    assert Concat(all) == all[0] + Concat(all[1..]);
  }

  lemma BodyCons(fields: seq<FieldSpec>, records: seq<FieldValues>, post: seq<Byte>)
    requires records != []
    ensures Concat(Encodings(fields, records)) + post ==
            Record(fields, records[0]) + (Concat(Encodings(fields, records[1..])) + post)
  {
    EncodingsCons(fields, records);
    Sequences.Regroup(Record(fields, records[0]), Concat(Encodings(fields, records[1..])), post);
  }

  lemma {:induction false} LastFits(fields: seq<FieldSpec>, records: seq<FieldValues>)
    requires records != []
    ensures |Record(fields, records[|records| - 1])| <= |Concat(Encodings(fields, records))|
  {
    EncodingsCons(fields, records);
    if |records| > 1 {
      LastFits(fields, records[1..]);
    }
  }

  ghost predicate ReadsBack(d: Decoded, fields: seq<FieldSpec>, records: seq<FieldValues>, separable: bool)
  {
    if separable then d == Decoded(AllValues(fields, records), 0)
    else d.malformed > 0 || |d.records| != |records|
  }

  /** For any records and any padding: if the records can be told from the padding the walker returns
      exactly the encoded values and calls nothing malformed; if not, it never gets them right. */
  lemma {:induction false} DataSetReadsBackExactly(templateId: nat, fields: seq<FieldSpec>, dialect: Dialect,
                                                   records: seq<FieldValues>, padding: nat)
    requires fields != []
    requires forall r :: r in records ==> ShortPayloads(fields, r)
    ensures var template := LearnedTemplate(templateId, fields, dialect);
            ReadsBack(DataRecords(Concat(Encodings(fields, records)) + Zeros(padding), 0, template), fields, records,
                      Separable(fields, records, MinRecord(template), padding))
    decreases |records|
  {
    var template := LearnedTemplate(templateId, fields, dialect);
    var body := Concat(Encodings(fields, records)) + Zeros(padding);
    if records == [] {
      assert body == Zeros(padding);
    } else if MinRecord(template) == 0 {
      assert records[0] in records;
      EmptyRecordsAreLost(templateId, fields, dialect, records, padding);
    } else if |body| < MinRecord(template) {
      TooShortToSeparate(templateId, fields, dialect, records, padding);
    } else {
      BodyCons(fields, records, Zeros(padding));
      DataSetReadsBackExactly(templateId, fields, dialect, records[1..], padding);
      assert records[0] in records;
      EmptyRecords(templateId, fields, dialect, records[0]);
      SeparableTail(fields, records, MinRecord(template), padding);
      FirstOfMany(template, fields, dialect, records, Concat(Encodings(fields, records[1..])) + Zeros(padding), body,
                  Separable(fields, records, MinRecord(template), padding));
    }
  }

  /** Whether the records can be told from the padding is decided by the last of them. */
  lemma SeparableTail(fields: seq<FieldSpec>, records: seq<FieldValues>, minimum: nat, padding: nat)
    requires records != [] && 0 < minimum
    requires |records| == 1 ==> minimum <= |Record(fields, records[0])| + padding
    ensures Separable(fields, records, minimum, padding) == Separable(fields, records[1..], minimum, padding)
  {
    if |records| > 1 {
      assert records[1..][|records| - 2] == records[|records| - 1];
    }
  }

  /** The later records read back, or fail to, and so do all of them. */
  lemma FirstOfMany(template: Template, fields: seq<FieldSpec>, dialect: Dialect, records: seq<FieldValues>,
                    rest: seq<Byte>, body: seq<Byte>, separable: bool)
    requires records != [] && template.fields == LearnedAll(fields, dialect)
    requires ShortPayloads(fields, records[0]) && Record(fields, records[0]) != []
    requires body == Record(fields, records[0]) + rest && MinRecord(template) <= |body|
    requires ReadsBack(DataRecords(rest, 0, template), fields, records[1..], separable)
    ensures ReadsBack(DataRecords(body, 0, template), fields, records, separable)
  {
    FirstRecordSplits(template, fields, records[0], dialect, rest, body);
    AddsValues(DataRecords(body, 0, template), DataRecords(rest, 0, template), fields, records, separable);
  }

  lemma AddsValues(all: Decoded, tail: Decoded, fields: seq<FieldSpec>, records: seq<FieldValues>, separable: bool)
    requires records != [] && ReadsBack(tail, fields, records[1..], separable)
    requires all == Decoded([Values(fields, records[0])] + tail.records, tail.malformed)
    ensures ReadsBack(all, fields, records, separable)
  {
  }

  /** With too little left to be a record, the walker takes the last one for padding. */
  lemma TooShortToSeparate(templateId: nat, fields: seq<FieldSpec>, dialect: Dialect,
                           records: seq<FieldValues>, padding: nat)
    requires records != []
    requires |Concat(Encodings(fields, records))| + padding < MinRecord(LearnedTemplate(templateId, fields, dialect))
    ensures var template := LearnedTemplate(templateId, fields, dialect);
            !Separable(fields, records, MinRecord(template), padding) &&
            ReadsBack(DataRecords(Concat(Encodings(fields, records)) + Zeros(padding), 0, template),
                      fields, records, false)
  {
    LastFits(fields, records);
  }

  /** A first record of no bytes is called malformed, unless there is nothing at all. */
  lemma EmptyFirst(templateId: nat, fields: seq<FieldSpec>, dialect: Dialect, values: FieldValues,
                   rest: seq<Byte>, body: seq<Byte>)
    requires fields != [] && ShortPayloads(fields, values) && body == Record(fields, values) + rest
    requires MinRecord(LearnedTemplate(templateId, fields, dialect)) == 0
    ensures var d := DataRecords(body, 0, LearnedTemplate(templateId, fields, dialect));
            d.malformed > 0 || d.records == []
  {
    EmptyRecords(templateId, fields, dialect, values);
    RecordReadsBack(fields, values, dialect, rest, body);
    if body != [] {
      ZeroStep(body, LearnedTemplate(templateId, fields, dialect), Values(fields, values));
    }
  }

  /** With records of no bytes at all there is nothing to read, or padding that never ends. */
  lemma EmptyRecordsAreLost(templateId: nat, fields: seq<FieldSpec>, dialect: Dialect,
                            records: seq<FieldValues>, padding: nat)
    requires fields != [] && records != [] && ShortPayloads(fields, records[0])
    requires MinRecord(LearnedTemplate(templateId, fields, dialect)) == 0
    ensures ReadsBack(DataRecords(Concat(Encodings(fields, records)) + Zeros(padding), 0,
                                  LearnedTemplate(templateId, fields, dialect)), fields, records, false)
  {
    var body := Concat(Encodings(fields, records)) + Zeros(padding);
    var rest := Concat(Encodings(fields, records[1..])) + Zeros(padding);
    BodyCons(fields, records, Zeros(padding));
    EmptyFirst(templateId, fields, dialect, records[0], rest, body);
  }

  lemma ZeroStep(body: seq<Byte>, template: Template, values: seq<seq<Byte>>)
    requires body != [] && MinRecord(template) == 0
    requires RecordLayout(body, 0, template.fields) == Some(Layout(values, 0))
    ensures DataRecords(body, 0, template) == Decoded([values], 1)
  {
  }

  /** The first record comes off the front and leaves the others as they were. */
  lemma FirstRecordSplits(template: Template, fields: seq<FieldSpec>, values: FieldValues, dialect: Dialect,
                          rest: seq<Byte>, body: seq<Byte>)
    requires template.fields == LearnedAll(fields, dialect) && ShortPayloads(fields, values)
    requires body == Record(fields, values) + rest
    requires Record(fields, values) != [] && MinRecord(template) <= |body|
    ensures var tail := DataRecords(rest, 0, template);
            DataRecords(body, 0, template) == Decoded([Values(fields, values)] + tail.records, tail.malformed)
  {
    RecordReadsBack(fields, values, dialect, rest, body);
    var n := |Record(fields, values)|;
    assert body[n..] == rest;
    DataShifted(body, n, n, template);
  }

  // ---------- messages ----------

  lemma {:induction false} SetsShifted(message: seq<Byte>, k: nat, offset: nat, end: nat)
    requires k <= offset && k <= end <= |message|
    ensures SetsIn(message[k..], offset - k, end - k) == SetsIn(message, offset, end)
    decreases end - offset
  {
    if offset + SET_HEADER_LENGTH <= end {
      var m := message[k..];
      assert ReadU16(m, offset - k) == ReadU16(message, offset);
      assert ReadU16(m, offset - k + 2) == ReadU16(message, offset + 2);
      var length := ReadU16(message, offset + 2);
      if SET_HEADER_LENGTH <= length <= end - offset {
        SetsShifted(message, k, offset + length, end);
        assert m[offset - k + SET_HEADER_LENGTH..offset - k + length] ==
               message[offset + SET_HEADER_LENGTH..offset + length];
      }
    }
  }

  ghost predicate Encodable(s: FlowSet)
  {
    s.id < 0x1_0000 && |s.body| + SET_HEADER_LENGTH < 0x1_0000
  }

  /** What stands at the front of an encoded set: its id, its length, its body, and what follows. */
  lemma SetAtFront(s: FlowSet, rest: seq<Byte>, bytes: seq<Byte>)
    requires Encodable(s) && bytes == EncodeSet(s) + rest
    ensures |bytes| >= |s.body| + SET_HEADER_LENGTH
    ensures ReadU16(bytes, 0) == s.id && ReadU16(bytes, 2) == |s.body| + SET_HEADER_LENGTH
    ensures bytes[SET_HEADER_LENGTH..|s.body| + SET_HEADER_LENGTH] == s.body
    ensures bytes[|s.body| + SET_HEADER_LENGTH..] == rest
  {
    var length := |s.body| + SET_HEADER_LENGTH;
    assert bytes == [] + U16(s.id) + (U16(length) + s.body + rest);
    ReadU16Written([], s.id, U16(length) + s.body + rest);
    assert bytes == U16(s.id) + U16(length) + (s.body + rest);
    ReadU16Written(U16(s.id), length, s.body + rest);
  }

  /** One more set in front is one more set found in front. */
  lemma SetInFront(first: FlowSet, rest: seq<FlowSet>, bytes: seq<Byte>, length: nat)
    requires SET_HEADER_LENGTH <= length <= |bytes|
    requires ReadU16(bytes, 0) == first.id && ReadU16(bytes, 2) == length
    requires bytes[SET_HEADER_LENGTH..length] == first.body && SetsIn(bytes, length, |bytes|) == (rest, false)
    ensures SetsIn(bytes, 0, |bytes|) == ([first] + rest, false)
  {
    SetStep(bytes, 0, |bytes|);
  }

  /** Sets written one after another are cut back into the same sets. */
  lemma {:induction false} SetsReadBack(sets: seq<FlowSet>, bytes: seq<Byte>)
    requires forall i :: 0 <= i < |sets| ==> Encodable(sets[i])
    requires bytes == EncodeSets(sets)
    ensures SetsIn(bytes, 0, |bytes|) == (sets, false)
    decreases |sets|
  {
    if sets != [] {
      var tail, length := EncodeSets(sets[1..]), |sets[0].body| + SET_HEADER_LENGTH;
      SetsReadBack(sets[1..], tail);
      SetAtFront(sets[0], tail, bytes);
      SetsBehind(bytes, length, tail, (sets[1..], false));
      SetInFront(sets[0], sets[1..], bytes, length);
      assert [sets[0]] + sets[1..] == sets;
    }
  }

  /** The context a built header gives the records of its message. */
  function MessageContext(exporter: string, domain: nat, observedAt: int, dialect: Dialect): Context
  {
    Context(exporter, domain, dialect,
            if dialect.V9? then EXPORT_TIME_SECONDS * 1000 - SYS_UPTIME_MS else 0, observedAt)
  }

  lemma IpfixHeaderReadsBack(body: seq<Byte>, domain: nat)
    requires domain < 0x1_0000_0000 && |body| + 16 < 0x1_0000
    ensures var message := IpfixHeader(|body|, domain) + body;
            ReadU16(message, 2) == |body| + 16 && ReadU32(message, 12) == domain
  {
    var message := IpfixHeader(|body|, domain) + body;
    var rest := U32(EXPORT_TIME_SECONDS) + U32(1) + U32(domain) + body;
    assert message == U16(10) + U16(|body| + 16) + rest;
    ReadU16Written(U16(10), |body| + 16, rest);
    var before := U16(10) + U16(|body| + 16) + U32(EXPORT_TIME_SECONDS) + U32(1);
    assert message == before + U32(domain) + body;
    ReadU32Written(before, domain, body);
  }

  lemma V9HeaderReadsBack(body: seq<Byte>, domain: nat)
    requires domain < 0x1_0000_0000
    ensures var message := V9Header(domain) + body;
            ReadU32(message, 4) == SYS_UPTIME_MS && ReadU32(message, 8) == EXPORT_TIME_SECONDS &&
            ReadU32(message, 16) == domain
  {
    var message := V9Header(domain) + body;
    var a, rest := U16(9) + U16(1), U32(EXPORT_TIME_SECONDS) + U32(1) + U32(domain) + body;
    assert message == a + U32(SYS_UPTIME_MS) + rest;
    ReadU32Written(a, SYS_UPTIME_MS, rest);
    var b, tail := a + U32(SYS_UPTIME_MS), U32(1) + U32(domain) + body;
    assert message == b + U32(EXPORT_TIME_SECONDS) + tail;
    ReadU32Written(b, EXPORT_TIME_SECONDS, tail);
    var c := b + U32(EXPORT_TIME_SECONDS) + U32(1);
    assert message == c + U32(domain) + body;
    ReadU32Written(c, domain, body);
  }

  lemma HeaderReadsBack(exporter: string, observedAt: int, sets: seq<seq<Byte>>, domain: nat, dialect: Dialect)
    requires domain < 0x1_0000_0000
    requires dialect.Ipfix? ==> |Concat(sets)| + 16 < 0x1_0000
    ensures var message := Message(sets, domain, dialect);
            |message| == dialect.HeaderLength() + |Concat(sets)| &&
            ReadHeader(message, exporter, observedAt, dialect) ==
            (MessageContext(exporter, domain, observedAt, dialect), |message|, false)
  {
    if dialect.Ipfix? {
      IpfixHeaderReadsBack(Concat(sets), domain);
    } else {
      V9HeaderReadsBack(Concat(sets), domain);
    }
  }

  lemma SetsBehind(message: seq<Byte>, n: nat, tail: seq<Byte>, sets: (seq<FlowSet>, bool))
    requires n <= |message| && message[n..] == tail
    requires SetsIn(tail, 0, |tail|) == sets
    ensures SetsIn(message, n, |message|) == sets
  {
    SetsShifted(message, n, n, |message|);
  }

  lemma SetsOfMessage(sets: seq<FlowSet>, encoded: seq<seq<Byte>>, domain: nat, dialect: Dialect)
    requires forall i :: 0 <= i < |sets| ==> Encodable(sets[i])
    requires Concat(encoded) == EncodeSets(sets)
    ensures var message := Message(encoded, domain, dialect);
            SetsIn(message, dialect.HeaderLength(), |message|) == (sets, false)
  {
    var message := Message(encoded, domain, dialect);
    assert message[dialect.HeaderLength()..] == EncodeSets(sets);
    SetsReadBack(sets, EncodeSets(sets));
    SetsBehind(message, dialect.HeaderLength(), EncodeSets(sets), (sets, false));
  }

  /** The two sets of a self-contained message. */
  function TemplateFlowSet(templateId: nat, fields: seq<FieldSpec>, dialect: Dialect): FlowSet
  {
    FlowSet(dialect.TemplateSetId(), TemplateBody(templateId, fields, dialect))
  }

  function DataFlowSet(templateId: nat, fields: seq<FieldSpec>, records: seq<FieldValues>): FlowSet
  {
    FlowSet(templateId, DataBody(Encodings(fields, records)))
  }

  /** The records a receiver should see: each the fold of its field values in template order. */
  function Expected(fields: seq<FieldSpec>, records: seq<FieldValues>, context: Context): seq<FlowRecord>
  {
    ToRecords(LearnedAll(fields, context.protocolVersion), AllValues(fields, records), context)
  }

  function PaddingOf(fields: seq<FieldSpec>, records: seq<FieldValues>): nat
  {
    Padding(|Concat(Encodings(fields, records))|)
  }

  /** What the builders themselves demand of their arguments, and what the wire cannot express. */
  ghost predicate Sendable(templateId: nat, fields: seq<FieldSpec>, records: seq<FieldValues>, dialect: Dialect)
  {
    MIN_DATA_SET_ID <= templateId < 0x1_0000 && 0 < |fields| < 0x1_0000 && AllReadable(fields, dialect) &&
    (forall r :: r in records ==> ShortPayloads(fields, r)) &&
    Encodable(TemplateFlowSet(templateId, fields, dialect)) && Encodable(DataFlowSet(templateId, fields, records))
  }

  /** The template set of a message leaves the learned template in the cache and nothing else behind. */
  lemma TemplateSetApplies(p: Progress, limit: nat, templateId: nat, fields: seq<FieldSpec>, context: Context)
    requires templateId < 0x1_0000 && 0 < |fields| < 0x1_0000 && AllReadable(fields, context.protocolVersion)
    ensures var key := TemplateKey(context.exporter, context.observationDomain, templateId);
            var template := LearnedTemplate(templateId, fields, context.protocolVersion);
            ApplySet(p, limit, TemplateFlowSet(templateId, fields, context.protocolVersion), context) ==
            p.(cache := Store(p.cache, limit, key, template)) &&
            Lookup(Store(p.cache, limit, key, template), key) == Some(template)
  {
    var key := TemplateKey(context.exporter, context.observationDomain, templateId);
    var template := LearnedTemplate(templateId, fields, context.protocolVersion);
    TemplateSetReadsBack(templateId, fields, context.protocolVersion);
    LookupAfterStore(p.cache, limit, key, template);
    LearnOne(p.cache, limit, context.exporter, context.observationDomain, template);
  }

  lemma LearnOne(s: CacheState, limit: nat, exporter: string, domain: nat, template: Template)
    ensures Learn(s, limit, exporter, domain, [template]) ==
            Store(s, limit, TemplateKey(exporter, domain, template.id), template)
  {
    var templates := [template];
    assert templates[1..] == [];
  }

  function SelfContained(templateId: nat, fields: seq<FieldSpec>, records: seq<FieldValues>, domain: nat,
                         dialect: Dialect): seq<Byte>
  {
    Message([TemplateSet(templateId, fields, dialect), DataSet(templateId, Encodings(fields, records))],
            domain, dialect)
  }

  lemma SelfContainedSets(templateId: nat, fields: seq<FieldSpec>, records: seq<FieldValues>, dialect: Dialect)
    ensures Concat([TemplateSet(templateId, fields, dialect), DataSet(templateId, Encodings(fields, records))]) ==
            EncodeSets([TemplateFlowSet(templateId, fields, dialect), DataFlowSet(templateId, fields, records)])
  {
    var a, b := TemplateSet(templateId, fields, dialect), DataSet(templateId, Encodings(fields, records));
    var x, y := TemplateFlowSet(templateId, fields, dialect), DataFlowSet(templateId, fields, records);
    assert a == EncodeSet(x) && b == EncodeSet(y);
    EncodeSetsCons(x, [y]);
    EncodeSetsCons(y, []);
    ConcatSnoc([a], b);
    ConcatSnoc([], a);
    assert [] + [a] == [a] && [a] + [b] == [a, b];
    assert [x, y] == [x] + [y];
  }

  /** What parsing a self-contained message comes to, whatever was in the cache. */
  lemma SelfContainedParse(templateId: nat, fields: seq<FieldSpec>, records: seq<FieldValues>, domain: nat,
                           dialect: Dialect, exporter: string, observedAt: int, cache: CacheState, limit: nat)
    requires Sendable(templateId, fields, records, dialect) && domain < 0x1_0000_0000
    requires dialect.Ipfix? ==> |SelfContained(templateId, fields, records, domain, dialect)| < 0x1_0000
    ensures var context := MessageContext(exporter, domain, observedAt, dialect);
            var decoded := DataRecords(DataBody(Encodings(fields, records)), 0,
                                       LearnedTemplate(templateId, fields, dialect));
            ParseSpec(SelfContained(templateId, fields, records, domain, dialect), exporter, observedAt, cache, limit,
                      dialect).result ==
            ParseResult(ToRecords(LearnedAll(fields, dialect), decoded.records, context), 0, decoded.malformed)
  {
    var message := SelfContained(templateId, fields, records, domain, dialect);
    var encoded := [TemplateSet(templateId, fields, dialect), DataSet(templateId, Encodings(fields, records))];
    var x, y := TemplateFlowSet(templateId, fields, dialect), DataFlowSet(templateId, fields, records);
    var context := MessageContext(exporter, domain, observedAt, dialect);
    SelfContainedSets(templateId, fields, records, dialect);
    HeaderReadsBack(exporter, observedAt, encoded, domain, dialect);
    SetsOfMessage([x, y], encoded, domain, dialect);
    TwoSets(Progress(cache, EMPTY_RESULT), limit, templateId, fields, records, context);
  }

  lemma TwoSets(p: Progress, limit: nat, templateId: nat, fields: seq<FieldSpec>, records: seq<FieldValues>,
                context: Context)
    requires Sendable(templateId, fields, records, context.protocolVersion) && p.result == EMPTY_RESULT
    ensures var dialect := context.protocolVersion;
            var decoded := DataRecords(DataBody(Encodings(fields, records)), 0,
                                       LearnedTemplate(templateId, fields, dialect));
            var sets := [TemplateFlowSet(templateId, fields, dialect), DataFlowSet(templateId, fields, records)];
            ApplySets(p, limit, sets, context).result ==
            ParseResult(ToRecords(LearnedAll(fields, dialect), decoded.records, context), 0, decoded.malformed)
  {
    var dialect := context.protocolVersion;
    var x, y := TemplateFlowSet(templateId, fields, dialect), DataFlowSet(templateId, fields, records);
    TemplateSetApplies(p, limit, templateId, fields, context);
    var q := ApplySet(p, limit, x, context);
    var sets := [x, y];
    assert sets[1..] == [y] && sets[1..][1..] == [];
    assert ApplySets(p, limit, sets, context) == ApplySets(q, limit, [y], context);
    assert ApplySets(q, limit, [y], context) == ApplySet(q, limit, y, context);
    var decoded := DataRecords(y.body, 0, LearnedTemplate(templateId, fields, dialect));
    assert [] + ToRecords(LearnedAll(fields, dialect), decoded.records, context) ==
           ToRecords(LearnedAll(fields, dialect), decoded.records, context);
  }

  /** Round trip, both dialects, any cache: a self-contained message parses to exactly the records
      that were encoded, each the fold of its field values in template order, with nothing
      malformed and nothing pending, whenever the records can be told from the padding. */
  lemma MessageRoundTrip(templateId: nat, fields: seq<FieldSpec>, records: seq<FieldValues>, domain: nat,
                         dialect: Dialect, exporter: string, observedAt: int, cache: CacheState, limit: nat)
    requires Sendable(templateId, fields, records, dialect) && domain < 0x1_0000_0000
    requires dialect.Ipfix? ==> |SelfContained(templateId, fields, records, domain, dialect)| < 0x1_0000
    requires Separable(fields, records, MinRecord(LearnedTemplate(templateId, fields, dialect)),
                       PaddingOf(fields, records))
    ensures ParseSpec(SelfContained(templateId, fields, records, domain, dialect), exporter, observedAt, cache, limit,
                      dialect).result ==
            ParseResult(Expected(fields, records, MessageContext(exporter, domain, observedAt, dialect)), 0, 0)
  {
    SelfContainedParse(templateId, fields, records, domain, dialect, exporter, observedAt, cache, limit);
    DataSetReadsBackExactly(templateId, fields, dialect, records, PaddingOf(fields, records));
  }

  /** And only then: when the records cannot be told from the padding, the parse either reports
      something malformed or returns a different number of records. */
  lemma MessageRoundTripFails(templateId: nat, fields: seq<FieldSpec>, records: seq<FieldValues>, domain: nat,
                              dialect: Dialect, exporter: string, observedAt: int, cache: CacheState, limit: nat)
    requires Sendable(templateId, fields, records, dialect) && domain < 0x1_0000_0000
    requires dialect.Ipfix? ==> |SelfContained(templateId, fields, records, domain, dialect)| < 0x1_0000
    requires !Separable(fields, records, MinRecord(LearnedTemplate(templateId, fields, dialect)),
                        PaddingOf(fields, records))
    ensures var result := ParseSpec(SelfContained(templateId, fields, records, domain, dialect), exporter, observedAt,
                                    cache, limit, dialect).result;
            result.malformed > 0 || |result.records| != |records|
  {
    SelfContainedParse(templateId, fields, records, domain, dialect, exporter, observedAt, cache, limit);
    DataSetReadsBackExactly(templateId, fields, dialect, records, PaddingOf(fields, records));
  }

  /** Both halves together: the parse gives back exactly what was encoded if and only if the records
      can be told from the padding, which a sender can work out before sending. */
  lemma MessageRoundTripExactly(templateId: nat, fields: seq<FieldSpec>, records: seq<FieldValues>, domain: nat,
                                dialect: Dialect, exporter: string, observedAt: int, cache: CacheState, limit: nat)
    requires Sendable(templateId, fields, records, dialect) && domain < 0x1_0000_0000
    requires dialect.Ipfix? ==> |SelfContained(templateId, fields, records, domain, dialect)| < 0x1_0000
    ensures ParseSpec(SelfContained(templateId, fields, records, domain, dialect), exporter, observedAt, cache, limit,
                      dialect).result ==
            ParseResult(Expected(fields, records, MessageContext(exporter, domain, observedAt, dialect)), 0, 0) <==>
            Separable(fields, records, MinRecord(LearnedTemplate(templateId, fields, dialect)),
                      PaddingOf(fields, records))
  {
    if Separable(fields, records, MinRecord(LearnedTemplate(templateId, fields, dialect)), PaddingOf(fields, records)) {
      MessageRoundTrip(templateId, fields, records, domain, dialect, exporter, observedAt, cache, limit);
    } else {
      MessageRoundTripFails(templateId, fields, records, domain, dialect, exporter, observedAt, cache, limit);
    }
  }

  // ---------- field values ----------

  /** Fitting a number to the template's width keeps it, whenever it fits at all. */
  lemma FitKeepsNumber(value: seq<Byte>, length: nat)
    requires ReadUint(value) < Pow(256, length)
    ensures ReadUint(Fit(value, length)) == ReadUint(value)
  {
    if |value| >= length {
      var hi, lo := value[..|value| - length], value[|value| - length..];
      assert value == hi + lo;
      LowDigits(256, hi, lo);
    } else {
      LeadingZeros(256, length - |value|, value);
      assert Fit(value, length) == seq(length - |value|, _ => 0) + value;
    }
  }

  /** Reduced-size encoding: a counter sent in any width it fits is read back exactly; at seven
      bytes, or beyond eight, only the low six bytes are read, so it must fit those. */
  lemma ReducedSizeReadsBack(v: nat, width: nat, length: nat)
    requires v < Pow(256, width) && v < Pow(256, length)
    requires length <= 6 || length == 8 || v < 0x1_0000_0000_0000
    ensures ReadUnsigned(Fit(Uint(v, width), length)) == v
  {
    var value := Fit(Uint(v, width), length);
    ReadUintOfUint(v, width);
    FitKeepsNumber(Uint(v, width), length);
    if !(length <= 6 || length == 8) {
      Widths();
      FitKeepsNumber(value, 6);
    }
  }

  /** The builder's NTP timestamp (section 6.1.9 of RFC 7011), as bytes. */
  function NtpTimestamp(unixMs: nat): seq<Byte>
  {
    U32(unixMs / 1000 + NTP_EPOCH_OFFSET_SECONDS) + U32(unixMs % 1000 * 0x1_0000_0000 / 1000)
  }

  lemma EighthsAreExact(r: nat)
    ensures r * 0x1_0000_0000 % 1000 == 0 <==> r % 125 == 0
  {
    var x := r * 0x1_0000_0000;
    if r % 125 == 0 {
      assert x == 1000 * (r / 125 * 0x2000_0000 * 1);
    }
    if x % 1000 == 0 {
      var q := x / 1000;
      // 46 is the remainder of the scale by 125, and 106 its inverse
      assert 46 * r == 125 * (8 * q - 34359738 * r);
      assert r == 125 * (106 * (8 * q - 34359738 * r) - 39 * r);
    }
  }

  lemma FractionReadsBack(r: nat)
    requires r < 1000
    ensures r * 0x1_0000_0000 / 1000 < 0x1_0000_0000
    ensures r * 0x1_0000_0000 / 1000 * 1000 / 0x1_0000_0000 == if r % 125 == 0 then r else r - 1
  {
    EighthsAreExact(r);
    var x := r * 0x1_0000_0000;
    var lost := x % 1000;
    assert x / 1000 * 1000 == x - lost;
  }

  lemma NtpBytes(seconds: nat, fraction: nat)
    requires seconds < 0x1_0000_0000 && fraction < 0x1_0000_0000
    ensures ReadU32(U32(seconds) + U32(fraction), 0) == seconds
    ensures ReadU32(U32(seconds) + U32(fraction), 4) == fraction
  {
    var s := U32(seconds) + U32(fraction);
    assert s == [] + U32(seconds) + U32(fraction);
    ReadU32Written([], seconds, U32(fraction));
    assert s == U32(seconds) + U32(fraction) + [];
    ReadU32Written(U32(seconds), fraction, []);
  }

  lemma NtpReadsBack(q: nat, r: nat)
    requires q + NTP_EPOCH_OFFSET_SECONDS < 0x1_0000_0000 && r < 1000
    ensures NtpToUnixMs(U32(q + NTP_EPOCH_OFFSET_SECONDS) + U32(r * 0x1_0000_0000 / 1000)) ==
            Some(q * 1000 + if r % 125 == 0 then r else r - 1)
  {
    FractionReadsBack(r);
    NtpBytes(q + NTP_EPOCH_OFFSET_SECONDS, r * 0x1_0000_0000 / 1000);
  }

  /** Converting to NTP and back is exact for multiples of 125 ms and loses one millisecond otherwise. */
  lemma NtpReadsBackExactly(unixMs: nat)
    requires unixMs / 1000 + NTP_EPOCH_OFFSET_SECONDS < 0x1_0000_0000
    ensures NtpToUnixMs(NtpTimestamp(unixMs)) == Some(if unixMs % 1000 % 125 == 0 then unixMs else unixMs - 1)
  {
    NtpReadsBack(unixMs / 1000, unixMs % 1000);
  }
}
