/**
 What the walker does on any bytes at all, whoever sent them.

 That it terminates and never reads out of bounds is what the definitions themselves are
 checked for. Here: the sets found tile a prefix of the message, the records found tile
 the front of their set, a record depends on nothing outside its own bytes, and there are
 never more records than bytes.
 */
module NetflowTotality {
  import opened Options
  import opened Radix
  import opened Bytes
  import Sequences
  import opened Fields
  import opened Templates
  import opened Netflow

  // ---------- sets tile the message ----------

  function EncodeSet(s: FlowSet): seq<Byte>
  {
    U16(s.id) + U16(|s.body| + SET_HEADER_LENGTH) + s.body
  }

  function EncodeSets(sets: seq<FlowSet>): seq<Byte>
  {
    if sets == [] then [] else EncodeSet(sets[0]) + EncodeSets(sets[1..])
  }

  lemma EncodeSetAt(message: seq<Byte>, offset: nat)
    requires offset + SET_HEADER_LENGTH <= |message|
    requires SET_HEADER_LENGTH <= ReadU16(message, offset + 2) <= |message| - offset
    ensures var length := ReadU16(message, offset + 2);
            EncodeSet(FlowSet(ReadU16(message, offset), message[offset + SET_HEADER_LENGTH..offset + length])) ==
            message[offset..offset + length]
  {
    U16OfRead(message, offset);
    U16OfRead(message, offset + 2);
    var length := ReadU16(message, offset + 2);
    assert message[offset..offset + 2] + message[offset + 2..offset + 4] + message[offset + 4..offset + length] ==
           message[offset..offset + length];
  }

  lemma EncodeSetsCons(first: FlowSet, rest: seq<FlowSet>)
    ensures EncodeSets([first] + rest) == EncodeSet(first) + EncodeSets(rest)
  {
    assert ([first] + rest)[1..] == rest;
  }

  /** The set at `offset` of a message whose next length is possible. */
  function SetAt(message: seq<Byte>, offset: nat): FlowSet
    requires offset + SET_HEADER_LENGTH <= |message|
    requires SET_HEADER_LENGTH <= ReadU16(message, offset + 2) <= |message| - offset
  {
    FlowSet(ReadU16(message, offset),
            message[offset + SET_HEADER_LENGTH..offset + ReadU16(message, offset + 2)])
  }

  predicate PossibleSet(message: seq<Byte>, offset: nat, end: nat)
    requires end <= |message|
  {
    offset + SET_HEADER_LENGTH <= end && SET_HEADER_LENGTH <= ReadU16(message, offset + 2) <= end - offset
  }

  /** The sets found from an offset on, written out again. */
  function Rewritten(message: seq<Byte>, offset: nat, end: nat): seq<Byte>
    requires end <= |message|
  {
    EncodeSets(SetsIn(message, offset, end).0)
  }

  /** Whether the walk from an offset on ends at an impossible set. */
  predicate BreaksOff(message: seq<Byte>, offset: nat, end: nat)
    requires end <= |message|
  {
    SetsIn(message, offset, end).1
  }

  lemma EncodedSets(message: seq<Byte>, offset: nat, end: nat)
    requires end <= |message| && PossibleSet(message, offset, end)
    ensures var next := offset + ReadU16(message, offset + 2);
            Rewritten(message, offset, end) == message[offset..next] + Rewritten(message, next, end) &&
            BreaksOff(message, offset, end) == BreaksOff(message, next, end)
  {
    SetStep(message, offset, end);
    EncodeSetAt(message, offset);
    EncodeSetsCons(SetAt(message, offset), SetsIn(message, offset + ReadU16(message, offset + 2), end).0);
  }

  lemma TileFirst(message: seq<Byte>, offset: nat, next: nat, end: nat, tail: seq<Byte>, bytes: seq<Byte>)
    requires offset <= next && next + |tail| <= end <= |message| && tail == message[next..next + |tail|]
    requires bytes == message[offset..next] + tail
    ensures offset + |bytes| <= end && bytes == message[offset..offset + |bytes|]
  {
  }

  lemma NothingEncoded(message: seq<Byte>, offset: nat, end: nat)
    requires end <= |message| && !PossibleSet(message, offset, end)
    ensures Rewritten(message, offset, end) == []
    ensures BreaksOff(message, offset, end) <==> offset + SET_HEADER_LENGTH <= end
  {
  }

  /** Re-encoding the sets found gives back exactly the bytes walked, set after set. */
  lemma {:induction false} SetsTileMessage(message: seq<Byte>, offset: nat, end: nat)
    requires offset <= end <= |message|
    ensures var bytes := Rewritten(message, offset, end);
            offset + |bytes| <= end && bytes == message[offset..offset + |bytes|]
    decreases end - offset
  {
    if PossibleSet(message, offset, end) {
      var next := offset + ReadU16(message, offset + 2);
      EncodedSets(message, offset, end);
      SetsTileMessage(message, next, end);
      TileFirst(message, offset, next, end, Rewritten(message, next, end), Rewritten(message, offset, end));
    } else {
      NothingEncoded(message, offset, end);
    }
  }

  /** The walk stops where no further set is possible, and reports a malformed message exactly
      when there was room left for a set header there. */
  lemma {:induction false} WalkStopsWhere(message: seq<Byte>, offset: nat, end: nat)
    requires offset <= end <= |message|
    ensures var next := offset + |Rewritten(message, offset, end)|;
            !PossibleSet(message, next, end) && (BreaksOff(message, offset, end) <==> next + SET_HEADER_LENGTH <= end)
    decreases end - offset
  {
    if PossibleSet(message, offset, end) {
      EncodedSets(message, offset, end);
      WalkStopsWhere(message, offset + ReadU16(message, offset + 2), end);
    } else {
      NothingEncoded(message, offset, end);
    }
  }

  // ---------- records tile their set ----------

  /** Consecutive cuts of `body`: one record between each two, all but the last of positive size. */
  ghost predicate Cuts(body: seq<Byte>, template: Template, records: seq<seq<seq<Byte>>>, cuts: seq<nat>, from: nat)
  {
    |cuts| == |records| + 1 && cuts[0] == from &&
    (forall i :: 0 <= i < |cuts| ==> cuts[i] <= |body|) &&
    (forall i :: 0 <= i < |records| ==> cuts[i] < |body| && cuts[i] <= cuts[i + 1]) &&
    (forall i :: 0 <= i < |records| - 1 ==> cuts[i] < cuts[i + 1]) &&
    (forall i :: 0 <= i < |records| ==>
       RecordLayout(body, cuts[i], template.fields) == Some(Layout(records[i], cuts[i + 1])))
  }

  lemma {:induction false} RecordsTileBody(body: seq<Byte>, offset: nat, template: Template) returns (cuts: seq<nat>)
    requires offset <= |body|
    ensures Cuts(body, template, DataRecords(body, offset, template).records, cuts, offset)
    decreases |body| - offset
  {
    var records := DataRecords(body, offset, template).records;
    cuts := [offset];
    if records != [] {
      var layout := RecordLayout(body, offset, template.fields).value;
      if layout.next <= offset {
        cuts := [offset, layout.next];
      } else {
        var rest := RecordsTileBody(body, layout.next, template);
        cuts := [offset] + rest;
        var tail := DataRecords(body, layout.next, template).records;
        assert records == [layout.values] + tail;
        assert forall i :: 0 <= i < |tail| ==> records[i + 1] == tail[i];
        forall i | 0 <= i < |records|
          ensures RecordLayout(body, cuts[i], template.fields) == Some(Layout(records[i], cuts[i + 1]))
        {
          if i > 0 { assert rest[i - 1] == cuts[i] && rest[i] == cuts[i + 1]; }
        }
      }
    }
  }

  /** A set never yields more records than it has bytes, even under a zero-length template. */
  lemma {:induction false} RecordsBounded(body: seq<Byte>, offset: nat, template: Template)
    requires offset <= |body|
    ensures |DataRecords(body, offset, template).records| <= |body| - offset
    ensures DataRecords(body, offset, template).malformed <= 1
    decreases |body| - offset
  {
    if offset < |body| && |body| - offset >= MinRecord(template) {
      var layout := RecordLayout(body, offset, template.fields);
      if layout.Some? && layout.value.next > offset {
        RecordsBounded(body, layout.value.next, template);
      }
    }
  }

  // ---------- a record reads only its own bytes ----------

  lemma SpanTruncated(body: seq<Byte>, m: nat, offset: nat, field: TemplateField)
    requires offset <= m <= |body|
    ensures var span := FieldSpan(body, offset, field);
            FieldSpan(body[..m], offset, field) == (if span.Some? && span.value.1 <= m then span else None)
  {
  }

  lemma SpanShifted(body: seq<Byte>, k: nat, offset: nat, field: TemplateField)
    requires k <= offset && k <= |body|
    ensures FieldSpan(body[k..], offset - k, field) ==
            match FieldSpan(body, offset, field)
            case None => None
            case Some(span) => Some((span.0 - k, span.1 - k))
  {
  }

  /** Cutting the buffer short hides a record exactly when the cut falls inside it. */
  lemma {:induction false} LayoutTruncated(body: seq<Byte>, m: nat, offset: nat, fields: seq<TemplateField>)
    requires offset <= m <= |body|
    ensures var layout := RecordLayout(body, offset, fields);
            RecordLayout(body[..m], offset, fields) ==
            (if layout.Some? && layout.value.next <= m then layout else None)
    decreases |fields|
  {
    if fields != [] {
      SpanTruncated(body, m, offset, fields[0]);
      var span := FieldSpan(body, offset, fields[0]);
      if span.Some? && span.value.1 <= m {
        LayoutTruncated(body, m, span.value.1, fields[1..]);
        assert body[..m][span.value.0..span.value.1] == body[span.value.0..span.value.1];
      }
    }
  }

  /** A record laid out from `i` in one body is the one laid out `k` bytes on in another. */
  ghost predicate LaidOutAlike(a: seq<Byte>, i: nat, b: seq<Byte>, k: nat, fields: seq<TemplateField>)
  {
    RecordLayout(a, i, fields) ==
    match RecordLayout(b, i + k, fields)
    case None => None
    case Some(layout) => Some(Layout(layout.values, layout.next - k))
  }

  lemma FieldAlike(a: seq<Byte>, i: nat, b: seq<Byte>, k: nat, fields: seq<TemplateField>, start: nat, next: nat)
    requires fields != [] && start <= next <= |a| && next + k <= |b|
    requires FieldSpan(a, i, fields[0]) == Some((start, next))
    requires FieldSpan(b, i + k, fields[0]) == Some((start + k, next + k))
    requires a[start..next] == b[start + k..next + k] && LaidOutAlike(a, next, b, k, fields[1..])
    ensures LaidOutAlike(a, i, b, k, fields)
  {
  }

  lemma CutShifted(body: seq<Byte>, k: nat, start: nat, next: nat)
    requires k <= start <= next <= |body|
    ensures body[k..][start - k..next - k] == body[start..next]
  {
  }

  /** Nothing before a record matters to it. */
  lemma {:induction false} LayoutShifted(body: seq<Byte>, k: nat, offset: nat, fields: seq<TemplateField>)
    requires k <= offset && k <= |body|
    ensures LaidOutAlike(body[k..], offset - k, body, k, fields)
    decreases |fields|
  {
    if fields != [] {
      SpanShifted(body, k, offset, fields[0]);
      var span := FieldSpan(body, offset, fields[0]);
      if span.Some? {
        var (start, next) := span.value;
        LayoutShifted(body, k, next, fields[1..]);
        CutShifted(body, k, start, next);
        FieldAlike(body[k..], offset - k, body, k, fields, start - k, next - k);
      }
    }
  }

  /** A record taken out of its buffer decodes to the same values: no byte outside it, before or
      after, can influence it. */
  lemma RecordIsLocal(body: seq<Byte>, offset: nat, fields: seq<TemplateField>)
    requires offset <= |body| && RecordLayout(body, offset, fields).Some?
    ensures var layout := RecordLayout(body, offset, fields).value;
            RecordLayout(body[offset..layout.next], 0, fields) == Some(Layout(layout.values, layout.next - offset))
  {
    var layout := RecordLayout(body, offset, fields).value;
    LayoutTruncated(body, layout.next, offset, fields);
    LayoutShifted(body[..layout.next], offset, offset, fields);
    assert body[..layout.next][offset..] == body[offset..layout.next];
  }

  // ---------- whole messages ----------

  function TotalBody(sets: seq<FlowSet>): nat
  {
    if sets == [] then 0 else |sets[0].body| + TotalBody(sets[1..])
  }

  lemma {:induction false} BodiesFit(sets: seq<FlowSet>)
    ensures TotalBody(sets) + SET_HEADER_LENGTH * |sets| == |EncodeSets(sets)|
  {
    if sets != [] { BodiesFit(sets[1..]); }
  }

  lemma ApplySetBounded(p: Progress, limit: nat, s: FlowSet, context: Context)
    ensures |ApplySet(p, limit, s, context).result.records| <= |p.result.records| + |s.body|
    ensures ApplySet(p, limit, s, context).result.malformed <= p.result.malformed + 1
    ensures ApplySet(p, limit, s, context).result.pendingTemplates <= p.result.pendingTemplates + 1
  {
    var template := Lookup(p.cache, TemplateKey(context.exporter, context.observationDomain, s.id));
    if template.Some? { RecordsBounded(s.body, 0, template.value); }
  }

  lemma {:induction false} ApplySetsBounded(p: Progress, limit: nat, sets: seq<FlowSet>, context: Context)
    ensures |ApplySets(p, limit, sets, context).result.records| <= |p.result.records| + TotalBody(sets)
    ensures ApplySets(p, limit, sets, context).result.malformed <= p.result.malformed + |sets|
    ensures ApplySets(p, limit, sets, context).result.pendingTemplates <= p.result.pendingTemplates + |sets|
    decreases |sets|
  {
    if sets != [] {
      ApplySetBounded(p, limit, sets[0], context);
      ApplySetsBounded(ApplySet(p, limit, sets[0], context), limit, sets[1..], context);
    }
  }

  /** For every datagram and every cache: no more records than bytes past the header, and every
      counter bounded by the number of four-byte set headers that fit. */
  lemma ResultBounded(datagram: seq<Byte>, exporter: string, observedAt: int, cache: CacheState, limit: nat,
                      dialect: Dialect)
    ensures var result := ParseSpec(datagram, exporter, observedAt, cache, limit, dialect).result;
            |result.records| <= |datagram| &&
            SET_HEADER_LENGTH * result.pendingTemplates <= |datagram| &&
            SET_HEADER_LENGTH * result.malformed <= |datagram| + 2 * SET_HEADER_LENGTH
  {
    if |datagram| >= dialect.HeaderLength() {
      var (context, end, doubtful) := ReadHeader(datagram, exporter, observedAt, dialect);
      var (sets, lost) := SetsIn(datagram, dialect.HeaderLength(), end);
      SetsTileMessage(datagram, dialect.HeaderLength(), end);
      BodiesFit(sets);
      ApplySetsBounded(Progress(cache, EMPTY_RESULT), limit, sets, context);
    }
  }

  // ---------- the cache under any traffic ----------

  /** The cache operations a template set amounts to. */
  function Puts(exporter: string, domain: nat, templates: seq<Template>): seq<CacheOp>
  {
    seq(|templates|, i requires 0 <= i < |templates| =>
      PutOp(TemplateKey(exporter, domain, templates[i].id), templates[i]))
  }

  lemma LearnOneByOne(limit: nat, s: CacheState, exporter: string, domain: nat, templates: seq<Template>)
    requires templates != []
    ensures Learn(s, limit, exporter, domain, templates) ==
            Learn(Apply(limit, s, PutOp(TemplateKey(exporter, domain, templates[0].id), templates[0])),
                  limit, exporter, domain, templates[1..])
  {
  }

  lemma PutsOneByOne(exporter: string, domain: nat, templates: seq<Template>)
    requires templates != []
    ensures Puts(exporter, domain, templates) ==
            [PutOp(TemplateKey(exporter, domain, templates[0].id), templates[0])] +
            Puts(exporter, domain, templates[1..])
  {
  }

  lemma {:induction false} LearnIsRun(limit: nat, ops: seq<CacheOp>, exporter: string, domain: nat,
                                      templates: seq<Template>)
    ensures Learn(Run(limit, ops), limit, exporter, domain, templates) ==
            Run(limit, ops + Puts(exporter, domain, templates))
    decreases |templates|
  {
    if templates == [] {
      assert ops + Puts(exporter, domain, templates) == ops;
    } else {
      var put := PutOp(TemplateKey(exporter, domain, templates[0].id), templates[0]);
      LearnOneByOne(limit, Run(limit, ops), exporter, domain, templates);
      PutsOneByOne(exporter, domain, templates);
      RunSnoc(limit, ops, put);
      LearnIsRun(limit, ops + [put], exporter, domain, templates[1..]);
      Sequences.Regroup(ops, [put], Puts(exporter, domain, templates[1..]));
    }
  }

  lemma RunSnoc(limit: nat, ops: seq<CacheOp>, op: CacheOp)
    ensures Run(limit, ops + [op]) == Apply(limit, Run(limit, ops), op)
  {
    assert (ops + [op])[..|ops|] == ops;
  }

  lemma {:induction false} ApplySetsIsRun(p: Progress, limit: nat, ops: seq<CacheOp>, sets: seq<FlowSet>,
                                          context: Context)
    returns (after: seq<CacheOp>)
    requires p.cache == Run(limit, ops)
    ensures ApplySets(p, limit, sets, context).cache == Run(limit, after)
    decreases |sets|
  {
    after := ops;
    if sets != [] {
      var next := ops;
      if sets[0].id == context.protocolVersion.TemplateSetId() {
        var templates := TemplatesIn(sets[0].body, 0, context.protocolVersion).0;
        LearnIsRun(limit, ops, context.exporter, context.observationDomain, templates);
        next := ops + Puts(context.exporter, context.observationDomain, templates);
      }
      after := ApplySetsIsRun(ApplySet(p, limit, sets[0], context), limit, next, sets[1..], context);
    }
  }

  datatype Arrival = Arrival(datagram: seq<Byte>, exporter: string, observedAt: int, dialect: Dialect)

  /** The cache after a sequence of datagrams from anyone. */
  function CacheAfter(limit: nat, arrivals: seq<Arrival>): CacheState
  {
    if arrivals == [] then EMPTY_CACHE
    else
      var a := arrivals[|arrivals| - 1];
      var before := CacheAfter(limit, arrivals[..|arrivals| - 1]);
      ParseSpec(a.datagram, a.exporter, a.observedAt, before, limit, a.dialect).cache
  }

  lemma {:induction false} CacheAfterIsRun(limit: nat, arrivals: seq<Arrival>) returns (ops: seq<CacheOp>)
    ensures CacheAfter(limit, arrivals) == Run(limit, ops)
  {
    ops := [];
    if arrivals != [] {
      var a := arrivals[|arrivals| - 1];
      var before := CacheAfterIsRun(limit, arrivals[..|arrivals| - 1]);
      ops := before;
      if |a.datagram| >= a.dialect.HeaderLength() {
        var (context, end, doubtful) := ReadHeader(a.datagram, a.exporter, a.observedAt, a.dialect);
        var sets := SetsIn(a.datagram, a.dialect.HeaderLength(), end).0;
        ops := ApplySetsIsRun(Progress(Run(limit, before), EMPTY_RESULT), limit, before, sets, context);
      }
    }
  }

  /** No traffic, however hostile, grows the cache past its limit. */
  lemma CacheBoundedUnderAnyTraffic(limit: nat, arrivals: seq<Arrival>)
    requires limit >= 1
    ensures CacheAfter(limit, arrivals).templates.Size() <= limit
  {
    var ops := CacheAfterIsRun(limit, arrivals);
    CacheInvariant(limit, ops);
  }
}
