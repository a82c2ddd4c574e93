/** The bounded cache of templates learned from exporters. */
module Templates {
  import opened Text
  import opened Options
  import opened Fields
  import opened OrderedMaps

  const DEFAULT_MAX_TEMPLATES: nat := 4096

  datatype TemplateKey = TemplateKey(exporter: string, observationDomain: nat, templateId: nat)

  function CacheKey(key: TemplateKey): string
  {
    key.exporter + "|" + Dec(key.observationDomain) + "|" + Dec(key.templateId)
  }

  datatype CacheState = CacheState(templates: OrderedMap<string, Template>, evictions: nat)

  const EMPTY_CACHE: CacheState := CacheState(OrderedMap([], map[]), 0)

  function Lookup(s: CacheState, key: TemplateKey): Option<Template>
  {
    if s.templates.Has(CacheKey(key)) then Some(s.templates.vals[CacheKey(key)]) else None
  }

  function Store(s: CacheState, limit: nat, key: TemplateKey, template: Template): CacheState
  {
    var id := CacheKey(key);
    var full := s.templates.Size() >= limit && s.templates.order != [];
    CacheState(s.templates.SetBounded(limit, id, template),
               s.evictions + if !s.templates.Has(id) && full then 1 else 0)
  }

  predicate BelongsTo(id: string, exporter: string) { exporter + "|" <= id }

  function Forgotten(s: CacheState, exporter: string): set<string>
  {
    set id | id in s.templates.order && BelongsTo(id, exporter)
  }

  function Forget(s: CacheState, exporter: string): CacheState
  {
    s.(templates := s.templates.Remove(Forgotten(s, exporter)))
  }

  function MatchCount(ids: seq<string>, exporter: string): nat
  {
    if ids == [] then 0
    else MatchCount(ids[..|ids| - 1], exporter) + if BelongsTo(ids[|ids| - 1], exporter) then 1 else 0
  }

  /** The count returned is the number of entries dropped. */
  lemma {:induction false} MatchCountIsSize(ids: seq<string>, exporter: string)
    requires NoDuplicates(ids)
    ensures MatchCount(ids, exporter) == |set id | id in ids && BelongsTo(id, exporter)|
  {
    if ids != [] {
      var init, last := ids[..|ids| - 1], ids[|ids| - 1];
      MatchCountIsSize(init, exporter);
      var before := set id | id in init && BelongsTo(id, exporter);
      assert ids == init + [last];
      assert (set id | id in ids && BelongsTo(id, exporter)) ==
             before + if BelongsTo(last, exporter) then {last} else {};
      assert last !in before;
    }
  }

  lemma RemoveNothing(m: OrderedMap<string, Template>)
    ensures m.Remove({}) == m
  {
    WithoutAbsent(m.order, {});
  }

  lemma RemoveTwice(m: OrderedMap<string, Template>, gone: set<string>, id: string)
    ensures m.Remove(gone).Remove({id}) == m.Remove(gone + {id})
  {
    WithoutTwice(m.order, gone, {id});
    assert m.vals - gone - {id} == m.vals - (gone + {id});
  }

  class TemplateCache {
    var templates: OrderedMap<string, Template>
    var evictions: nat
    const maxTemplates: nat

    constructor (maxTemplates: nat := DEFAULT_MAX_TEMPLATES)
      ensures this.maxTemplates == maxTemplates && State() == EMPTY_CACHE
    {
      this.maxTemplates := maxTemplates;
      templates, evictions := OrderedMap([], map[]), 0;
    }

    function State(): CacheState
      reads this
    {
      CacheState(templates, evictions)
    }

    method Get(key: TemplateKey) returns (r: Option<Template>)
      ensures r == Lookup(State(), key)
    {
      var id := CacheKey(key);
      r := if templates.Has(id) then Some(templates.vals[id]) else None;
    }

    method Set(key: TemplateKey, template: Template)
      modifies this
      ensures State() == Store(old(State()), maxTemplates, key, template)
    {
      var id := CacheKey(key);
      if !templates.Has(id) && templates.Size() >= maxTemplates {
        if templates.order != [] {
          templates := templates.Remove({templates.order[0]});
          evictions := evictions + 1;
        }
      }
      templates := templates.Set(id, template);
    }

    method ForgetExporter(exporter: string) returns (removed: nat)
      modifies this
      ensures State() == Forget(old(State()), exporter)
      ensures removed == MatchCount(old(templates.order), exporter)
    {
      var ids := templates.order;
      ghost var start := templates;
      ghost var gone: set<string> := {};
      removed := 0;
      RemoveNothing(templates);
      for i := 0 to |ids|
        invariant evictions == old(evictions)
        invariant gone == set id | id in ids[..i] && BelongsTo(id, exporter)
        invariant templates == start.Remove(gone)
        invariant removed == MatchCount(ids[..i], exporter)
      {
        assert ids[..i + 1] == ids[..i] + [ids[i]];
        if BelongsTo(ids[i], exporter) {
          RemoveTwice(start, gone, ids[i]);
          templates := templates.Remove({ids[i]});
          removed := removed + 1;
          gone := gone + {ids[i]};
        }
      }
      assert ids[..|ids|] == ids;
    }

    method Reset()
      modifies this
      ensures State() == EMPTY_CACHE
    {
      templates, evictions := OrderedMap([], map[]), 0;
    }
  }

  // ---------- keys ----------

  lemma DecHasNoBar(v: nat)
    ensures '|' !in Dec(v) && Dec(v) != ""
  {
    ParsePrint(10, v);
  }

  lemma SplitKey(key: TemplateKey)
    ensures Split(CacheKey(key), "|") ==
            Split(key.exporter, "|") + [Dec(key.observationDomain), Dec(key.templateId)]
  {
    var d, t := Dec(key.observationDomain), Dec(key.templateId);
    DecHasNoBar(key.observationDomain);
    DecHasNoBar(key.templateId);
    StartsNowhereChar(d, '|');
    StartsNowhereChar(t, '|');
    SplitAt(key.exporter + "|" + d, '|', t);
    SplitAt(key.exporter, '|', d);
    SplitWhole(d, "|");
    SplitWhole(t, "|");
  }

  /** One cache entry per exporter, domain and template id, whatever characters the exporter name holds. */
  lemma CacheKeyInjective(a: TemplateKey, b: TemplateKey)
    requires CacheKey(a) == CacheKey(b)
    ensures a == b
  {
    SplitKey(a);
    SplitKey(b);
    var pa, pb := Split(a.exporter, "|"), Split(b.exporter, "|");
    var p := Split(CacheKey(a), "|");
    assert |pa| == |p| - 2 == |pb|;
    assert p[..|p| - 2] == pa && p[..|p| - 2] == pb;
    assert p[|p| - 2] == Dec(a.observationDomain) == Dec(b.observationDomain);
    assert p[|p| - 1] == Dec(a.templateId) == Dec(b.templateId);
    JoinSplit(a.exporter, "|");
    JoinSplit(b.exporter, "|");
    ParsePrint(10, a.observationDomain);
    ParsePrint(10, b.observationDomain);
    ParsePrint(10, a.templateId);
    ParsePrint(10, b.templateId);
  }

  /** `exporter` names the start of the key that ends at one of its two added bars, or sooner. */
  ghost predicate Reaches(exporter: string, key: TemplateKey)
  {
    key.exporter == exporter || exporter + "|" <= key.exporter ||
    exporter == key.exporter + "|" + Dec(key.observationDomain)
  }

  lemma BelongsToReaches(key: TemplateKey, exporter: string)
    requires BelongsTo(CacheKey(key), exporter)
    ensures Reaches(exporter, key)
  {
    var id, d, t := CacheKey(key), Dec(key.observationDomain), Dec(key.templateId);
    DecHasNoBar(key.observationDomain);
    DecHasNoBar(key.templateId);
    BarPosition(key.exporter, d, t, |exporter|);
    assert exporter == id[..|exporter|];
    if |exporter| < |key.exporter| {
      assert exporter + "|" == id[..|exporter| + 1] == key.exporter[..|exporter| + 1];
    } else if |exporter| == |key.exporter| {
      assert id[..|exporter|] == key.exporter;
    } else {
      assert id[..|exporter|] == key.exporter + "|" + d;
    }
  }

  lemma ReachesBelongs(key: TemplateKey, exporter: string)
    requires Reaches(exporter, key)
    ensures BelongsTo(CacheKey(key), exporter)
  {
    var id := CacheKey(key);
    assert exporter + "|" == id[..|exporter| + 1];
  }

  lemma BarPosition(e: string, d: string, t: string, p: nat)
    requires '|' !in d && '|' !in t
    requires p < |e + "|" + d + "|" + t| && (e + "|" + d + "|" + t)[p] == '|'
    ensures p <= |e| || p == |e| + 1 + |d|
  {
    var id := e + "|" + d + "|" + t;
    forall q | |e| < q < |e| + 1 + |d| ensures id[q] != '|' {
      assert id[q] == d[q - |e| - 1];
    }
    forall q | |e| + 1 + |d| < q < |id| ensures id[q] != '|' {
      assert id[q] == t[q - |e| - |d| - 2];
    }
  }

  /** Exactly whose entries forgetting an exporter takes: its own, and those of exporters whose
      names only differ from it after a bar. */
  lemma BelongsToExactly(key: TemplateKey, exporter: string)
    ensures BelongsTo(CacheKey(key), exporter) <==> Reaches(exporter, key)
  {
    if BelongsTo(CacheKey(key), exporter) { BelongsToReaches(key, exporter); }
    if Reaches(exporter, key) { ReachesBelongs(key, exporter); }
  }

  lemma BarInside(before: string, after: string, s: string)
    requires before + "|" + after <= s
    ensures '|' in s
  {
    assert s[|before|] == (before + "|" + after)[|before|];
  }

  /** For exporter names without a bar, forgetting one takes exactly its own entries. */
  lemma ForgetTakesExactlyOwn(key: TemplateKey, exporter: string)
    requires '|' !in key.exporter && '|' !in exporter
    ensures BelongsTo(CacheKey(key), exporter) <==> key.exporter == exporter
  {
    BelongsToExactly(key, exporter);
    if exporter + "|" <= key.exporter { BarInside(exporter, "", key.exporter); }
    if exporter == key.exporter + "|" + Dec(key.observationDomain) {
      BarInside(key.exporter, Dec(key.observationDomain), exporter);
    }
  }

  // ---------- whole runs ----------

  datatype CacheOp = PutOp(key: TemplateKey, template: Template) | ForgetOp(exporter: string) | ResetOp

  function Apply(limit: nat, s: CacheState, op: CacheOp): CacheState
  {
    match op
    case PutOp(key, template) => Store(s, limit, key, template)
    case ForgetOp(exporter) => Forget(s, exporter)
    case ResetOp => EMPTY_CACHE
  }

  function Run(limit: nat, ops: seq<CacheOp>): CacheState
  {
    if ops == [] then EMPTY_CACHE else Apply(limit, Run(limit, ops[..|ops| - 1]), ops[|ops| - 1])
  }

  predicate Puts(op: CacheOp, id: string) { op.PutOp? && CacheKey(op.key) == id }

  /** The step at which the entry now held under `id` first appeared. */
  function Birth(limit: nat, ops: seq<CacheOp>, id: string): nat
  {
    if ops == [] then 0 else
    var init := ops[..|ops| - 1];
    if Puts(ops[|ops| - 1], id) && !Run(limit, init).templates.Has(id) then |init| else Birth(limit, init, id)
  }

  /** The listed entries were born in the listed order, each before now. */
  ghost predicate BornInOrder(limit: nat, ops: seq<CacheOp>, order: seq<string>)
  {
    (forall i :: 0 <= i < |order| ==> Birth(limit, ops, order[i]) < |ops|) &&
    (forall i, j :: 0 <= i < j < |order| ==> Birth(limit, ops, order[i]) < Birth(limit, ops, order[j]))
  }

  ghost predicate WithinLimit(m: OrderedMap<string, Template>, limit: nat)
  {
    m.Valid() && (m.Size() <= limit || m.Size() <= 1)
  }

  /** In every reachable state the cache is within its limit (one entry is held even at limit
      zero), and its entries stand in the order they first appeared. */
  lemma {:induction false} CacheInvariant(limit: nat, ops: seq<CacheOp>)
    ensures WithinLimit(Run(limit, ops).templates, limit)
    ensures BornInOrder(limit, ops, Run(limit, ops).templates.order)
  {
    if ops != [] {
      var init, op := ops[..|ops| - 1], ops[|ops| - 1];
      CacheInvariant(limit, init);
      match op {
        case PutOp(key, template) =>
          Run(limit, init).templates.SetBoundedKeepsValid(limit, CacheKey(key), template);
          PutKeepsOrder(limit, ops);
        case ForgetOp(exporter) => ForgetKeepsOrder(limit, ops);
        case ResetOp =>
      }
    }
  }

  /** A step that inserts nothing new leaves every birth alone. */
  lemma BirthsKept(limit: nat, ops: seq<CacheOp>, order: seq<string>)
    requires ops != []
    requires BornInOrder(limit, ops[..|ops| - 1], order)
    requires forall k :: k in order ==> Run(limit, ops[..|ops| - 1]).templates.Has(k)
    ensures BornInOrder(limit, ops, order)
  {
    forall i | 0 <= i < |order|
      ensures Birth(limit, ops, order[i]) == Birth(limit, ops[..|ops| - 1], order[i])
    {
      assert order[i] in order;
    }
  }

  lemma PutKeepsOrder(limit: nat, ops: seq<CacheOp>)
    requires ops != [] && ops[|ops| - 1].PutOp?
    requires BornInOrder(limit, ops[..|ops| - 1], Run(limit, ops[..|ops| - 1]).templates.order)
    requires var before, id := Run(limit, ops[..|ops| - 1]).templates, CacheKey(ops[|ops| - 1].key);
             (forall k :: k in before.order ==> before.Has(k)) &&
             before.Victims(limit, id) + Run(limit, ops).templates.order ==
               if before.Has(id) then before.order else before.order + [id]
    ensures BornInOrder(limit, ops, Run(limit, ops).templates.order)
  {
    var init, op := ops[..|ops| - 1], ops[|ops| - 1];
    var id := CacheKey(op.key);
    var before, after := Run(limit, init).templates, Run(limit, ops).templates;
    BirthsKept(limit, ops, before.order);
    var victims := before.Victims(limit, id);
    if before.Has(id) {
      assert victims + after.order == before.order;
      SuffixInOrder(limit, ops, before.order, victims, after.order);
    } else {
      assert victims + after.order == before.order + [id];
      BirthsBefore(limit, init, ops, before.order);
      ExtendOrder(limit, ops, before.order, id);
      SuffixInOrder(limit, ops, before.order + [id], victims, after.order);
    }
  }

  lemma ExtendOrder(limit: nat, ops: seq<CacheOp>, order: seq<string>, id: string)
    requires ops != [] && BornInOrder(limit, ops, order)
    requires forall i :: 0 <= i < |order| ==> Birth(limit, ops, order[i]) < |ops| - 1
    requires Birth(limit, ops, id) == |ops| - 1
    ensures BornInOrder(limit, ops, order + [id])
  {
  }

  lemma SuffixInOrder(limit: nat, ops: seq<CacheOp>, all: seq<string>, gone: seq<string>, left: seq<string>)
    requires BornInOrder(limit, ops, all) && gone + left == all
    ensures BornInOrder(limit, ops, left)
  {
    forall i | 0 <= i < |left| ensures left[i] == all[i + |gone|] {
    }
  }

  lemma BirthsBefore(limit: nat, init: seq<CacheOp>, ops: seq<CacheOp>, order: seq<string>)
    requires ops != [] && init == ops[..|ops| - 1] && BornInOrder(limit, init, order)
    requires forall k :: k in order ==> Run(limit, init).templates.Has(k)
    ensures forall i :: 0 <= i < |order| ==> Birth(limit, ops, order[i]) < |init|
  {
    forall i | 0 <= i < |order| ensures Birth(limit, ops, order[i]) < |init| {
      assert order[i] in order;
    }
  }

  lemma ForgetKeepsOrder(limit: nat, ops: seq<CacheOp>)
    requires ops != [] && ops[|ops| - 1].ForgetOp?
    requires WithinLimit(Run(limit, ops[..|ops| - 1]).templates, limit)
    requires BornInOrder(limit, ops[..|ops| - 1], Run(limit, ops[..|ops| - 1]).templates.order)
    ensures WithinLimit(Run(limit, ops).templates, limit)
    ensures BornInOrder(limit, ops, Run(limit, ops).templates.order)
  {
    var init, op := ops[..|ops| - 1], ops[|ops| - 1];
    var before := Run(limit, init).templates;
    var gone := Forgotten(Run(limit, init), op.exporter);
    before.RemoveKeepsValid(gone);
    WithoutShrinks(before.order, gone);
    WithoutIsFilter(before.order, gone);
    var left := Without(before.order, gone);
    forall i, j | 0 <= i < j < |left| ensures Birth(limit, init, left[i]) < Birth(limit, init, left[j]) {
      var a, b := WithoutInOrder(before.order, gone, i, j);
    }
    forall i | 0 <= i < |left| ensures Birth(limit, init, left[i]) < |init| {
      assert left[i] in before.order;
      var a :| 0 <= a < |before.order| && before.order[a] == left[i];
    }
    BirthsKept(limit, ops, left);
  }

  /** The victim of an eviction is the entry that first appeared earliest; redefining a template
      never saves it. */
  lemma VictimIsOldest(limit: nat, ops: seq<CacheOp>, put: CacheOp, victim: string)
    requires put.PutOp?
    requires Run(limit, ops).templates.Has(victim) && !Run(limit, ops + [put]).templates.Has(victim)
    ensures Run(limit, ops).templates.Size() >= limit && !Run(limit, ops).templates.Has(CacheKey(put.key))
    ensures forall id :: Run(limit, ops).templates.Has(id) && id != victim ==>
              Birth(limit, ops, victim) < Birth(limit, ops, id)
  {
    CacheInvariant(limit, ops);
    assert (ops + [put])[..|ops|] == ops;
    var before := Run(limit, ops).templates;
    before.SetBoundedKeepsValid(limit, CacheKey(put.key), put.template);
    assert victim == before.order[0];
    forall id | before.Has(id) && id != victim ensures Birth(limit, ops, victim) < Birth(limit, ops, id) {
      var j :| 0 <= j < |before.order| && before.order[j] == id;
    }
  }

  /** How many entries were given up to make room since the cache was last reset. */
  ghost function GivenUp(limit: nat, ops: seq<CacheOp>): nat
  {
    if ops == [] || ops[|ops| - 1].ResetOp? then 0 else
    var before, after := Run(limit, ops[..|ops| - 1]).templates, Run(limit, ops).templates;
    GivenUp(limit, ops[..|ops| - 1]) +
    if ops[|ops| - 1].PutOp? then |set id | id in before.order && !after.Has(id)| else 0
  }

  lemma GivenUpOnce(s: CacheState, limit: nat, key: TemplateKey, template: Template)
    requires s.templates.Valid()
    ensures var after := Store(s, limit, key, template);
            after.evictions == s.evictions + |set id | id in s.templates.order && !after.templates.Has(id)|
  {
    var before, after := s.templates, Store(s, limit, key, template).templates;
    var lost := set id | id in before.order && !after.Has(id);
    if !before.Has(CacheKey(key)) && before.Size() >= limit && before.order != [] {
      assert before.order[0] in before.order && before.Has(before.order[0]);
      assert lost == {before.order[0]};
    } else {
      assert lost == {};
    }
  }

  /** The eviction counter counts exactly the entries given up; what is forgotten on request is not counted. */
  lemma {:induction false} EvictionsAreCounted(limit: nat, ops: seq<CacheOp>)
    ensures Run(limit, ops).evictions == GivenUp(limit, ops)
  {
    if ops != [] {
      var init, op := ops[..|ops| - 1], ops[|ops| - 1];
      EvictionsAreCounted(limit, init);
      CacheInvariant(limit, init);
      if op.PutOp? { GivenUpOnce(Run(limit, init), limit, op.key, op.template); }
    }
  }

  /** A held entry is always the newest definition that was stored under its key. */
  lemma {:induction false} HeldIsNewest(limit: nat, ops: seq<CacheOp>, id: string) returns (last: nat)
    requires Run(limit, ops).templates.Has(id)
    ensures last < |ops| && Puts(ops[last], id)
    ensures forall i :: last < i < |ops| ==> !Puts(ops[i], id)
    ensures Run(limit, ops).templates.vals[id] == ops[last].template
  {
    var init, op := ops[..|ops| - 1], ops[|ops| - 1];
    if Puts(op, id) {
      last := |ops| - 1;
    } else {
      assert Run(limit, init).templates.Has(id);
      last := HeldIsNewest(limit, init, id);
    }
  }

  /** Storing always makes the template available under its key, even at limit zero. */
  lemma LookupAfterStore(s: CacheState, limit: nat, key: TemplateKey, template: Template)
    ensures Lookup(Store(s, limit, key, template), key) == Some(template)
  {
  }
}
