/**
 Template withdrawals (section 8.1 of RFC 7011): a header with no fields. The walker passes over
 one, so it neither defines nor removes a template; here is exactly when a template set does define one.
 */
module Withdrawals {
  import opened Options
  import opened Bytes
  import opened Templates
  import opened Netflow
  import opened RoundTrip

  /** The first `k` headers of a template set are withdrawals; each takes four bytes. */
  ghost predicate Withdraws(body: seq<Byte>, k: nat)
  {
    4 * k <= |body| && forall j :: 0 <= j < k ==> ReadU16(body, 4 * j + 2) == 0
  }

  /** A header at `offset` that announces fields, all of whose definitions are there. */
  ghost predicate DefinesAt(body: seq<Byte>, offset: nat, dialect: Dialect)
  {
    offset + 4 <= |body| && ReadU16(body, offset + 2) > 0 &&
    FieldSpecs(body, offset + 4, ReadU16(body, offset + 2), dialect).Some?
  }

  /** A template set defines something if and only if behind its leading withdrawals, however many,
      stands a header with fields whose definitions are not cut off. */
  lemma {:induction false} DefinesExactly(body: seq<Byte>, k: nat, dialect: Dialect) returns (n: nat)
    requires Withdraws(body, k)
    ensures k <= n && Withdraws(body, n) && (4 * n + 4 > |body| || ReadU16(body, 4 * n + 2) > 0)
    ensures TemplatesIn(body, 4 * k, dialect).0 != [] <==> DefinesAt(body, 4 * n, dialect)
    decreases |body| - 4 * k
  {
    n := k;
    if 4 * k + 4 <= |body| && ReadU16(body, 4 * k + 2) == 0 {
      n := DefinesExactly(body, k + 1, dialect);
    }
  }

  /** With too few bytes for the fields announced, at four bytes each at least, nothing is read. */
  lemma {:induction false} DefinitionsCutOff(body: seq<Byte>, offset: nat, count: nat, dialect: Dialect)
    requires 0 < count && |body| < offset + 4 * count
    ensures FieldSpecs(body, offset, count, dialect).None?
    decreases count
  {
    if offset + 4 <= |body| {
      DefinitionsCutOff(body, offset + 4, count - 1, dialect);
      DefinitionsCutOff(body, offset + 8, count - 1, dialect);
    }
  }

  /** A template that is cut off is reported, and not defined. */
  lemma CutTemplateReported(templateId: nat, count: nat, tail: seq<Byte>, dialect: Dialect)
    requires templateId < 0x1_0000 && 0 < count < 0x1_0000 && |tail| < 4 * count
    ensures TemplatesIn(U16(templateId) + U16(count) + tail, 0, dialect) == ([], true)
  {
    var body := U16(templateId) + U16(count) + tail;
    ReadU16Written(U16(templateId), count, tail);
    DefinitionsCutOff(body, 4, count, dialect);
  }

  /** Two bodies define the same templates from these offsets on. */
  ghost predicate DefineAlike(a: seq<Byte>, i: nat, b: seq<Byte>, j: nat, dialect: Dialect)
  {
    TemplatesIn(a, i, dialect) == TemplatesIn(b, j, dialect)
  }

  /** Definitions read alike, with what follows them. */
  ghost predicate ReadAlike(a: seq<Byte>, i: nat, b: seq<Byte>, j: nat, count: nat, dialect: Dialect)
  {
    match (FieldSpecs(a, i, count, dialect), FieldSpecs(b, j, count, dialect))
    case (Some(x), Some(y)) => x.0 == y.0 && DefineAlike(a, x.1, b, y.1, dialect)
    case (None, None) => true
    case _ => false
  }

  lemma SameHeader(a: seq<Byte>, i: nat, b: seq<Byte>, j: nat, count: nat, dialect: Dialect)
    requires i + 4 <= |a| && j + 4 <= |b| && ReadU16(a, i) == ReadU16(b, j)
    requires ReadU16(a, i + 2) == count && ReadU16(b, j + 2) == count
    requires if count == 0 then DefineAlike(a, i + 4, b, j + 4, dialect)
             else ReadAlike(a, i + 4, b, j + 4, count, dialect)
    ensures DefineAlike(a, i, b, j, dialect)
  {
  }

  lemma {:induction false} TemplatesShifted(body: seq<Byte>, k: nat, offset: nat, dialect: Dialect)
    requires k <= offset && k <= |body|
    ensures DefineAlike(body[k..], offset - k, body, offset, dialect)
    decreases |body| - offset, 1
  {
    if offset + 4 <= |body| {
      var count := ReadU16(body, offset + 2);
      U16Shift(body, k, offset - k);
      U16Shift(body, k, offset - k + 2);
      if count == 0 {
        TemplatesShifted(body, k, offset + 4, dialect);
      } else {
        DefinitionsShifted(body, k, offset + 4, count, dialect);
      }
      SameHeader(body[k..], offset - k, body, offset, count, dialect);
    }
  }

  lemma {:induction false} DefinitionsShifted(body: seq<Byte>, k: nat, offset: nat, count: nat, dialect: Dialect)
    requires k <= offset <= |body|
    ensures ReadAlike(body[k..], offset - k, body, offset, count, dialect)
    decreases |body| - offset, 2
  {
    FieldSpecsShifted(body, k, offset, count, dialect);
    var fields := FieldSpecs(body, offset, count, dialect);
    if fields.Some? {
      TemplatesShifted(body, k, fields.value.1, dialect);
    }
  }

  /** A withdrawal of a template. */
  function Withdrawal(templateId: nat): seq<Byte> { U16(templateId) + U16(0) }

  lemma WithdrawalSkipped(templateId: nat, rest: seq<Byte>, body: seq<Byte>, dialect: Dialect)
    requires body == Withdrawal(templateId) + rest
    ensures TemplatesIn(body, 0, dialect) == TemplatesIn(rest, 0, dialect)
  {
    assert ReadU16(body, 2) == 0;
    assert body[4..] == rest;
    TemplatesShifted(body, 4, 4, dialect);
  }

  /** A withdrawal in front of any template set changes nothing in what the set does, to the cache or
      to the counters. */
  lemma WithdrawalChangesNothing(p: Progress, limit: nat, templateId: nat, rest: seq<Byte>, context: Context)
    ensures var id := context.protocolVersion.TemplateSetId();
            ApplySet(p, limit, FlowSet(id, Withdrawal(templateId) + rest), context) ==
            ApplySet(p, limit, FlowSet(id, rest), context)
  {
    WithdrawalSkipped(templateId, rest, Withdrawal(templateId) + rest, context.protocolVersion);
  }

  /** So a withdrawal leaves any cache as it was: the template withdrawn is found as before, and so is
      every other, in either dialect; nothing is called malformed. */
  lemma WithdrawalKeepsTemplate(p: Progress, limit: nat, templateId: nat, context: Context)
    ensures var id := context.protocolVersion.TemplateSetId();
            var after := ApplySet(p, limit, FlowSet(id, Withdrawal(templateId)), context);
            after.result == p.result && forall key :: Lookup(after.cache, key) == Lookup(p.cache, key)
  {
    assert Withdrawal(templateId) + [] == Withdrawal(templateId);
    WithdrawalChangesNothing(p, limit, templateId, [], context);
  }
}
