/**
 Whole runs of the process: the one shared notifier, built by whoever asks for it first, and
 replaced on every change of the delivery settings while the old one is flushed out.
 */
module ReloadRuns {
  import opened Options
  import opened OrderedMaps
  import opened Digests
  import opened Notifiers
  import opened NotifierRuns
  import opened Sequences

  /** A notifier, with every dispatch its ceiling is answerable for: its own, and those made by
      the notifiers whose history it carries. */
  datatype Instance = Instance(config: Config, d: DigestState, history: seq<int>)

  /** The process: the shared notifier if there is one, those being flushed out, those thrown away
      with their history because another had been built by then, and the times of all dispatches. */
  datatype Process = Process(current: Option<Instance>, retiring: seq<Instance>, gone: seq<Instance>, log: seq<int>)

  const FRESH_PROCESS: Process := Process(None, [], [], [])

  /** `Touch` is any call of `notifier()` that offers it no finding, such as a status request or a
      sink that closes; what the caller then does to the notifier is an event of its own. */
  datatype ProcessEvent =
    | Touch(settings: Config)
    | Arrive(item: Queued, settings: Config)
    | OnCurrent(event: Event)
    | OnRetiring(which: nat, event: Event)
    | BeginReload
    | EndReload(which: nat, settings: Config)

  function Built(settings: Config): Instance { Instance(settings, IDLE_DIGEST, []) }

  /** The replacement carries the throttle and ceiling history, never the queue. */
  function Carried(settings: Config, previous: Instance): Instance
  {
    Instance(settings, CarriedDigest(previous.d.lastNotifiedAt, previous.d.sent), previous.history)
  }

  function StepInstance(i: Instance, e: Event, t: int): Instance
  {
    Instance(i.config, After(i.config, i.d, e, t), Logged(i.d, e, t, i.history))
  }

  /** What `notifier()` returns. */
  function TheNotifier(p: Process, settings: Config): Instance
  {
    if p.current.Some? then p.current.value else Built(settings)
  }

  function Omitting<T>(xs: seq<T>, k: nat): seq<T>
    requires k < |xs|
  {
    xs[..k] + xs[k + 1..]
  }

  /** A step that is not possible in the state at hand changes nothing. */
  function StepProcess(p: Process, e: ProcessEvent, t: int): Process
  {
    match e
    case Touch(settings) => p.(current := Some(TheNotifier(p, settings)))
    case Arrive(item, settings) => p.(current := Some(StepInstance(TheNotifier(p, settings), Consider(item), t)))
    case OnCurrent(event) =>
      if p.current.None? || !IsInternal(event) then p
      else p.(current := Some(StepInstance(p.current.value, event, t)),
              log := Logged(p.current.value.d, event, t, p.log))
    case OnRetiring(k, event) =>
      if k >= |p.retiring| || !IsInternal(event) then p
      else p.(retiring := p.retiring[k := StepInstance(p.retiring[k], event, t)],
              log := Logged(p.retiring[k].d, event, t, p.log))
    case BeginReload =>
      if p.current.None? then p else p.(current := None, retiring := p.retiring + [p.current.value])
    case EndReload(k, settings) =>
      // The flush has resolved: see ExportRuns.FlushHandsOver, by which nothing is left queued.
      if k >= |p.retiring| || p.retiring[k].d.queue != [] then p
      else if p.current.Some?
      then p.(retiring := Omitting(p.retiring, k), gone := p.gone + [p.retiring[k]])
      else p.(current := Some(Carried(settings, p.retiring[k])), retiring := Omitting(p.retiring, k))
  }

  datatype TimedProcess = Then(time: int, event: ProcessEvent)

  function RunFrom(p: Process, events: seq<TimedProcess>): Process
  {
    if events == [] then p
    else var last := events[|events| - 1]; StepProcess(RunFrom(p, events[..|events| - 1]), last.event, last.time)
  }

  function RunProcess(events: seq<TimedProcess>): Process { RunFrom(FRESH_PROCESS, events) }

  // ---------- conservation ----------

  /** The process with what it has done so far: verdicts given, messages started. */
  datatype Ledger = Ledger(p: Process, queuedVerdicts: nat, batches: seq<(seq<Queued>, nat)>)

  /** The batch that leaves on a step of one notifier, if any. */
  function Leaving(d: DigestState, e: Event): seq<(seq<Queued>, nat)>
  {
    if Starts(d, e) then [(d.queue, d.omitted)] else []
  }

  function BatchOf(p: Process, e: ProcessEvent): seq<(seq<Queued>, nat)>
  {
    match e
    case OnCurrent(event) => if p.current.None? || !IsInternal(event) then [] else Leaving(p.current.value.d, event)
    case OnRetiring(k, event) =>
      if k >= |p.retiring| || !IsInternal(event) then [] else Leaving(p.retiring[k].d, event)
    case _ => []
  }

  predicate IsQueued(p: Process, e: ProcessEvent, t: int)
  {
    e.Arrive? &&
    var i := TheNotifier(p, e.settings);
    VerdictOn(i.config, i.d, e.item, t) == QueuedUp
  }

  function Recorded(l: Ledger, e: ProcessEvent, t: int): Ledger
  {
    Ledger(StepProcess(l.p, e, t), l.queuedVerdicts + if IsQueued(l.p, e, t) then 1 else 0, l.batches + BatchOf(l.p, e))
  }

  function LedgerOf(events: seq<TimedProcess>): Ledger
  {
    if events == [] then Ledger(FRESH_PROCESS, 0, [])
    else
      var last := events[|events| - 1];
      Recorded(LedgerOf(events[..|events| - 1]), last.event, last.time)
  }

  function PendingOn(): Instance -> nat { (i: Instance) => Pending(i.d) }

  /** How many findings wait anywhere: on the shared notifier, or on one being flushed out. */
  function PendingIn(p: Process): nat
  {
    (if p.current.Some? then Pending(p.current.value.d) else 0) + Sum(p.retiring, PendingOn())
  }

  /** Findings are only counted as overflow behind a full queue. */
  ghost predicate OverflowBehindQueue(d: DigestState) { d.queue == [] ==> d.omitted == 0 }

  ghost predicate EachOverflows(p: Process)
  {
    (p.current.Some? ==> OverflowBehindQueue(p.current.value.d)) &&
    forall k :: 0 <= k < |p.retiring| ==> OverflowBehindQueue(p.retiring[k].d)
  }

  lemma OverflowKept(i: Instance, e: Event, t: int)
    requires OverflowBehindQueue(i.d)
    ensures OverflowBehindQueue(StepInstance(i, e, t).d)
  {
  }

  lemma StepOverflows(p: Process, e: ProcessEvent, t: int)
    requires EachOverflows(p)
    ensures EachOverflows(StepProcess(p, e, t))
  {
    match e {
      case Arrive(item, settings) => OverflowKept(TheNotifier(p, settings), Consider(item), t);
      case OnCurrent(event) => if p.current.Some? { OverflowKept(p.current.value, event, t); }
      case OnRetiring(k, event) => if k < |p.retiring| { OverflowKept(p.retiring[k], event, t); }
      case _ =>
    }
  }

  ghost predicate Conserved(l: Ledger)
  {
    l.queuedVerdicts == Reported(l.batches) + PendingIn(l.p)
  }

  lemma LeavingTakesAll(i: Instance, e: Event, t: int, batches: seq<(seq<Queued>, nat)>)
    requires IsInternal(e)
    ensures Reported(batches + Leaving(i.d, e)) + Pending(StepInstance(i, e, t).d) == Reported(batches) + Pending(i.d)
  {
    OthersTakeAllOrNothing(i.config, i.d, e, t);
    if Starts(i.d, e) {
      ReportedSnoc(batches, i.d.queue, i.d.omitted);
    } else {
      assert batches + [] == batches;
    }
  }

  lemma RetiringConserves(l: Ledger, k: nat, event: Event, t: int)
    requires Conserved(l) && k < |l.p.retiring| && IsInternal(event)
    ensures Conserved(Recorded(l, OnRetiring(k, event), t))
  {
    LeavingTakesAll(l.p.retiring[k], event, t, l.batches);
    SumUpdate(l.p.retiring, k, StepInstance(l.p.retiring[k], event, t), PendingOn());
  }

  /** Reloads move notifiers about and leave with none that still has something to send. */
  lemma ReloadsKeepPending(p: Process, e: ProcessEvent, t: int)
    requires EachOverflows(p) && (e.BeginReload? || e.EndReload?)
    ensures PendingIn(StepProcess(p, e, t)) == PendingIn(p)
  {
    match e {
      case BeginReload =>
        if p.current.Some? { SumSnoc(p.retiring, p.current.value, PendingOn()); }
      case EndReload(k, settings) =>
        if k < |p.retiring| && p.retiring[k].d.queue == [] { SumWithout(p.retiring, k, PendingOn()); }
    }
  }

  lemma StepConserves(l: Ledger, e: ProcessEvent, t: int)
    requires Conserved(l) && EachOverflows(l.p)
    ensures Conserved(Recorded(l, e, t))
  {
    var p := l.p;
    assert l.batches + [] == l.batches;
    match e {
      case Touch(settings) =>
      case Arrive(item, settings) =>
        ConsiderAdds(TheNotifier(p, settings).config, TheNotifier(p, settings).d, item, t);
      case OnCurrent(event) =>
        if p.current.Some? && IsInternal(event) { LeavingTakesAll(p.current.value, event, t, l.batches); }
      case OnRetiring(k, event) =>
        if k < |p.retiring| && IsInternal(event) { RetiringConserves(l, k, event, t); }
      case _ => ReloadsKeepPending(p, e, t);
    }
  }

  lemma {:induction false} LedgersConserve(events: seq<TimedProcess>)
    ensures Conserved(LedgerOf(events)) && EachOverflows(LedgerOf(events).p)
    ensures LedgerOf(events).p == RunProcess(events)
  {
    if events != [] {
      var init, last := events[..|events| - 1], events[|events| - 1];
      LedgersConserve(init);
      StepConserves(LedgerOf(init), last.event, last.time);
      StepOverflows(LedgerOf(init).p, last.event, last.time);
    }
  }

  /** Over any run of the process, across any reloads, overlapping or not: every finding given the
      verdict `queued` has been listed in a message, counted as omitted from one, or still waits on
      some notifier that has yet to send; none is lost and none is reported twice. */
  lemma QueuedIsConserved(events: seq<TimedProcess>)
    ensures LedgerOf(events).queuedVerdicts == Reported(LedgerOf(events).batches) + PendingIn(RunProcess(events))
  {
    LedgersConserve(events);
  }

  // ---------- the hourly ceiling ----------

  predicate CeilingIs(e: ProcessEvent, max: int)
  {
    (e.Touch? || e.Arrive? || e.EndReload?) ==> e.settings.maxPerHour == max
  }

  /** One clock that never goes back, and one ceiling throughout. */
  ghost predicate Steady(events: seq<TimedProcess>, max: int)
  {
    (forall i, j :: 0 <= i < j < |events| ==> events[i].time <= events[j].time) &&
    forall i :: 0 <= i < |events| ==> CeilingIs(events[i].event, max)
  }

  predicate Builds(p: Process, e: ProcessEvent) { (e.Touch? || e.Arrive?) && p.current.None? }

  /** A notifier built while another is being flushed knows nothing of what that one has sent. */
  function FreshBuild(p: Process, e: ProcessEvent): nat { if Builds(p, e) && p.retiring != [] then 1 else 0 }

  /** How often something happened in a run. */
  function Tally(p: Process, events: seq<TimedProcess>, what: (Process, ProcessEvent) -> nat): nat
  {
    if events == [] then 0
    else
      var init := events[..|events| - 1];
      Tally(p, init, what) + what(RunFrom(p, init), events[|events| - 1].event)
  }

  function FreshBuilds(events: seq<TimedProcess>): nat { Tally(FRESH_PROCESS, events, FreshBuild) }

  ghost predicate Within(i: Instance, max: int, now: int)
  {
    i.config.maxPerHour == max && exists gate: int :: Governed(i.d, i.history, max, gate, now)
  }

  ghost predicate EachWithin(s: seq<Instance>, max: int, now: int)
  {
    forall k :: 0 <= k < |s| ==> Within(s[k], max, now)
  }

  ghost predicate ProcessWithin(p: Process, max: int, now: int)
  {
    (p.current.Some? ==> Within(p.current.value, max, now)) &&
    EachWithin(p.retiring, max, now) && EachWithin(p.gone, max, now)
  }

  lemma BuiltWithin(settings: Config, now: int)
    ensures Within(Built(settings), settings.maxPerHour, now)
  {
    assert Governed(IDLE_DIGEST, [], settings.maxPerHour, now, now);
  }

  lemma CarriedWithin(settings: Config, i: Instance, now: int)
    requires Within(i, settings.maxPerHour, now)
    ensures Within(Carried(settings, i), settings.maxPerHour, now)
  {
    var gate: int :| Governed(i.d, i.history, settings.maxPerHour, gate, now);
    assert Governed(Carried(settings, i).d, i.history, settings.maxPerHour, gate, now);
  }

  lemma StepWithin(i: Instance, e: Event, max: int, now: int, t: int)
    requires Within(i, max, now) && now <= t
    ensures Within(StepInstance(i, e, t), max, t)
  {
    var gate: int :| Governed(i.d, i.history, max, gate, now);
    var next := StepKeeps(i.config, i.d, e, i.history, gate, now, t);
  }

  lemma LaterWithin(i: Instance, max: int, now: int, t: int)
    requires Within(i, max, now) && now <= t
    ensures Within(i, max, t)
  {
    var gate: int :| Governed(i.d, i.history, max, gate, now);
    TimePasses(i.d, i.history, max, gate, now, t);
  }

  lemma LaterProcess(p: Process, max: int, now: int, t: int)
    requires ProcessWithin(p, max, now) && now <= t
    ensures ProcessWithin(p, max, t)
  {
    if p.current.Some? { LaterWithin(p.current.value, max, now, t); }
    forall k | 0 <= k < |p.retiring| ensures Within(p.retiring[k], max, t) { LaterWithin(p.retiring[k], max, now, t); }
    forall k | 0 <= k < |p.gone| ensures Within(p.gone[k], max, t) { LaterWithin(p.gone[k], max, now, t); }
  }

  lemma StepKeepsWithin(p: Process, e: ProcessEvent, max: int, t: int)
    requires ProcessWithin(p, max, t) && CeilingIs(e, max)
    ensures ProcessWithin(StepProcess(p, e, t), max, t)
  {
    match e {
      case Touch(settings) => BuiltWithin(settings, t);
      case Arrive(item, settings) =>
        BuiltWithin(settings, t);
        StepWithin(TheNotifier(p, settings), Consider(item), max, t, t);
      case OnCurrent(event) => if p.current.Some? { StepWithin(p.current.value, event, max, t, t); }
      case OnRetiring(k, event) => if k < |p.retiring| { StepWithin(p.retiring[k], event, max, t, t); }
      case BeginReload =>
      case EndReload(k, settings) => if k < |p.retiring| { CarriedWithin(settings, p.retiring[k], t); }
    }
  }

  /** How many histories there are. */
  function Held(p: Process): nat { |p.retiring| + |p.gone| + if p.current.Some? then 1 else 0 }

  /** Nothing has been thrown away unless something took its place. */
  ghost predicate Succeeded(p: Process) { p.gone != [] ==> p.current.Some? || p.retiring != [] }

  lemma StepHolds(p: Process, e: ProcessEvent, t: int)
    requires Succeeded(p)
    ensures Succeeded(StepProcess(p, e, t))
    ensures Held(StepProcess(p, e, t)) <= Held(p) + if Builds(p, e) then 1 else 0
    ensures Builds(p, e) && p.retiring == [] ==> Held(p) == 0
  {
  }

  function InHour(lo: int): Instance -> nat { (i: Instance) => CountIn(i.history, lo, lo + HOUR) }

  function CountHeld(p: Process, lo: int): nat
  {
    (if p.current.Some? then CountIn(p.current.value.history, lo, lo + HOUR) else 0) +
    Sum(p.retiring, InHour(lo)) + Sum(p.gone, InHour(lo))
  }

  lemma CountSnoc(log: seq<int>, t: int, lo: int, hi: int)
    ensures CountIn(log + [t], lo, hi) == CountIn(log, lo, hi) + if lo <= t <= hi then 1 else 0
  {
    assert (log + [t])[..|log|] == log;
  }

  lemma LoggedTogether(d: DigestState, e: Event, t: int, history: seq<int>, log: seq<int>, lo: int)
    ensures CountIn(Logged(d, e, t, history), lo, lo + HOUR) + CountIn(log, lo, lo + HOUR) ==
            CountIn(Logged(d, e, t, log), lo, lo + HOUR) + CountIn(history, lo, lo + HOUR)
  {
    CountSnoc(log, t, lo, lo + HOUR);
    CountSnoc(history, t, lo, lo + HOUR);
  }

  ghost predicate AllCounted(p: Process, lo: int) { CountIn(p.log, lo, lo + HOUR) == CountHeld(p, lo) }

  lemma RetiringCounted(p: Process, k: nat, event: Event, t: int, lo: int)
    requires AllCounted(p, lo) && k < |p.retiring| && IsInternal(event)
    ensures AllCounted(StepProcess(p, OnRetiring(k, event), t), lo)
  {
    LoggedTogether(p.retiring[k].d, event, t, p.retiring[k].history, p.log, lo);
    SumUpdate(p.retiring, k, StepInstance(p.retiring[k], event, t), InHour(lo));
  }

  lemma EndCounted(p: Process, k: nat, settings: Config, t: int, lo: int)
    requires AllCounted(p, lo) && k < |p.retiring|
    ensures AllCounted(StepProcess(p, EndReload(k, settings), t), lo)
  {
    SumWithout(p.retiring, k, InHour(lo));
    SumSnoc(p.gone, p.retiring[k], InHour(lo));
  }

  /** Every dispatch is in exactly one history. */
  lemma StepKeepsCount(p: Process, e: ProcessEvent, t: int, lo: int)
    requires AllCounted(p, lo)
    ensures AllCounted(StepProcess(p, e, t), lo)
  {
    match e {
      case OnCurrent(event) =>
        if p.current.Some? {
          LoggedTogether(p.current.value.d, event, t, p.current.value.history, p.log, lo);
        }
      case OnRetiring(k, event) =>
        if k < |p.retiring| && IsInternal(event) { RetiringCounted(p, k, event, t, lo); }
      case BeginReload =>
        if p.current.Some? { SumSnoc(p.retiring, p.current.value, InHour(lo)); }
      case EndReload(k, settings) =>
        if k < |p.retiring| { EndCounted(p, k, settings, t, lo); }
      case _ =>
    }
  }

  ghost predicate RunOk(p: Process, extra: nat, max: int, now: int, lo: int)
  {
    ProcessWithin(p, max, now) && Succeeded(p) && Held(p) <= 1 + extra && AllCounted(p, lo)
  }

  lemma {:induction false} RunsAreOk(events: seq<TimedProcess>, max: int, lo: int)
    requires Steady(events, max) && events != []
    ensures RunOk(RunProcess(events), FreshBuilds(events), max, events[|events| - 1].time, lo)
  {
    var init, last := events[..|events| - 1], events[|events| - 1];
    var p := RunProcess(init);
    if init != [] {
      RunsAreOk(init, max, lo);
      LaterProcess(p, max, init[|init| - 1].time, last.time);
    }
    StepKeepsWithin(p, last.event, max, last.time);
    StepHolds(p, last.event, last.time);
    StepKeepsCount(p, last.event, last.time, lo);
  }

  lemma WithinCount(i: Instance, max: int, now: int, lo: int)
    requires Within(i, max, now)
    ensures CountIn(i.history, lo, lo + HOUR) <= AtLeastZero(max)
  {
    SpacedCount(i.history, AtLeastZero(max), lo);
  }

  lemma EachWithinCount(s: seq<Instance>, max: int, now: int, lo: int)
    requires EachWithin(s, max, now)
    ensures Sum(s, InHour(lo)) <= |s| * AtLeastZero(max)
  {
    forall k | 0 <= k < |s| ensures InHour(lo)(s[k]) <= AtLeastZero(max) {
      WithinCount(s[k], max, now, lo);
    }
    SumAtMost(s, InHour(lo), AtLeastZero(max));
  }

  lemma Distribute(a: nat, b: nat, c: nat, m: nat)
    ensures a * m + b * m + c * m == (a + b + c) * m
  {
  }

  lemma HeldCount(p: Process, max: int, now: int, lo: int)
    requires ProcessWithin(p, max, now)
    ensures CountHeld(p, lo) <= Held(p) * AtLeastZero(max)
  {
    EachWithinCount(p.retiring, max, now, lo);
    EachWithinCount(p.gone, max, now, lo);
    if p.current.Some? { WithinCount(p.current.value, max, now, lo); }
    Distribute(|p.retiring|, |p.gone|, if p.current.Some? then 1 else 0, AtLeastZero(max));
  }

  lemma TimesMonotone(a: nat, b: nat, m: nat)
    requires a <= b
    ensures a * m <= b * m
  {
    assert b * m == a * m + (b - a) * m;
  }

  /** Over any run at all, every closed hour holds at most the ceiling once, and once more for each
      notifier that was built while another was being flushed out. */
  lemma HourlyBound(events: seq<TimedProcess>, max: int, lo: int)
    requires Steady(events, max)
    ensures CountIn(RunProcess(events).log, lo, lo + 3_600_000) <= (1 + FreshBuilds(events)) * AtLeastZero(max)
  {
    if events != [] {
      RunsAreOk(events, max, lo);
      HeldCount(RunProcess(events), max, events[|events| - 1].time, lo);
      TimesMonotone(Held(RunProcess(events)), 1 + FreshBuilds(events), AtLeastZero(max));
    }
  }

  /** Nothing builds a notifier while one is being flushed out. */
  ghost predicate QuietReloads(events: seq<TimedProcess>)
  {
    forall n :: 0 <= n < |events| && Builds(RunProcess(events[..n]), events[n].event) ==>
                RunProcess(events[..n]).retiring == []
  }

  lemma {:induction false} QuietBuildsNone(events: seq<TimedProcess>)
    requires QuietReloads(events)
    ensures FreshBuilds(events) == 0
  {
    if events != [] {
      var init := events[..|events| - 1];
      forall n | 0 <= n < |init| && Builds(RunProcess(init[..n]), init[n].event)
        ensures RunProcess(init[..n]).retiring == []
      {
        assert init[..n] == events[..n] && init[n] == events[n];
      }
      QuietBuildsNone(init);
      assert init == events[..|init|];
    }
  }

  /** Hourly ceiling: although the limit is tested when a finding is queued and not when the
      digest is sent, every closed hour holds at most `max(0, maxPerHour)` dispatches, across
      any number of reloads during which nothing builds a notifier. */
  lemma HourlyCeiling(events: seq<TimedProcess>, max: int, lo: int)
    requires Steady(events, max) && QuietReloads(events)
    ensures CountIn(RunProcess(events).log, lo, lo + 3_600_000) <= AtLeastZero(max)
  {
    QuietBuildsNone(events);
    HourlyBound(events, max, lo);
  }

  // ---------- the bound is reached ----------

  /** A finding that arrives while a notifier is being flushed out. */
  function LateArrival(p: Process, e: ProcessEvent): nat { if e.Arrive? && p.retiring != [] then 1 else 0 }

  lemma {:induction false} RunConcat(p: Process, xs: seq<TimedProcess>, ys: seq<TimedProcess>)
    ensures RunFrom(p, xs + ys) == RunFrom(RunFrom(p, xs), ys)
    ensures Tally(p, xs + ys, FreshBuild) == Tally(p, xs, FreshBuild) + Tally(RunFrom(p, xs), ys, FreshBuild)
    ensures Tally(p, xs + ys, LateArrival) == Tally(p, xs, LateArrival) + Tally(RunFrom(p, xs), ys, LateArrival)
  {
    if ys == [] {
      assert xs + ys == xs;
    } else {
      assert (xs + ys)[..|xs + ys| - 1] == xs + ys[..|ys| - 1];
      RunConcat(p, xs, ys[..|ys| - 1]);
    }
  }

  lemma RunOne(p: Process, x: TimedProcess)
    ensures RunFrom(p, [x]) == StepProcess(p, x.event, x.time)
    ensures Tally(p, [x], FreshBuild) == FreshBuild(p, x.event)
    ensures Tally(p, [x], LateArrival) == LateArrival(p, x.event)
  {
    assert [x][..0] == [];
  }

  lemma RunThree(p: Process, x: TimedProcess, y: TimedProcess, z: TimedProcess)
    ensures var q := StepProcess(p, x.event, x.time);
            var r := StepProcess(q, y.event, y.time);
            RunFrom(p, [x, y, z]) == StepProcess(r, z.event, z.time) &&
            Tally(p, [x, y, z], FreshBuild) ==
              FreshBuild(p, x.event) + FreshBuild(q, y.event) + FreshBuild(r, z.event) &&
            Tally(p, [x, y, z], LateArrival) ==
              LateArrival(p, x.event) + LateArrival(q, y.event) + LateArrival(r, z.event)
  {
    RunOne(p, x);
    RunConcat(p, [x], [y]);
    RunOne(RunFrom(p, [x]), y);
    RunConcat(p, [x] + [y], [z]);
    RunOne(RunFrom(p, [x] + [y]), z);
    assert [x, y, z] == [x] + [y] + [z];
  }

  /** A finding is queued and its digest sent, all at time zero. */
  function Round(item: Queued, settings: Config): seq<TimedProcess>
  {
    [Then(0, Arrive(item, settings)), Then(0, OnCurrent(Dispatch)), Then(0, OnCurrent(Settle))]
  }

  function Rounds(items: seq<Queued>, settings: Config): seq<TimedProcess>
  {
    if items == [] then [] else Rounds(items[..|items| - 1], settings) + Round(items[|items| - 1], settings)
  }

  /** The settings are saved, and a status request comes in before the flush has resolved. */
  function PolledReload(settings: Config): seq<TimedProcess>
  {
    [Then(0, BeginReload), Then(0, Touch(settings)), Then(0, EndReload(0, settings))]
  }

  /** The same findings again after each of `n` reloads. */
  function Lives(items: seq<Queued>, settings: Config, n: nat): seq<TimedProcess>
  {
    if n == 0 then [Then(0, Touch(settings))] + Rounds(items, settings)
    else Lives(items, settings, n - 1) + (PolledReload(settings) + Rounds(items, settings))
  }

  predicate AllZero(log: seq<int>) { forall k :: 0 <= k < |log| ==> log[k] == 0 }

  predicate Used(items: seq<Queued>, key: string) { exists k :: 0 <= k < |items| && items[k].dedupKey == key }

  /** A notifier that has sent a digest for each of these findings, all at time zero. */
  ghost predicate HasSent(i: Instance, settings: Config, items: seq<Queued>)
  {
    i.config == settings && i.d.queue == [] && !i.d.sending && AllZero(i.d.sent) && |i.d.sent| == |items| &&
    forall key :: i.d.lastNotifiedAt.Has(key) ==> Used(items, key)
  }

  predicate Offerable(items: seq<Queued>, settings: Config)
  {
    Active(settings) &&
    (forall k :: 0 <= k < |items| ==> MeetsThreshold(items[k].finding.severity, settings.minSeverity)) &&
    forall j, k :: 0 <= j < k < |items| ==> items[j].dedupKey != items[k].dedupKey
  }

  /** The process has its notifier, which has sent these, and no reload is under way. */
  ghost predicate Settled(p: Process, settings: Config, items: seq<Queued>)
  {
    p.current.Some? && HasSent(p.current.value, settings, items) && p.retiring == []
  }

  lemma RoundSends(i: Instance, settings: Config, items: seq<Queued>, item: Queued)
    requires HasSent(i, settings, items) && |items| < settings.maxPerHour && Active(settings)
    requires MeetsThreshold(item.finding.severity, settings.minSeverity) && !Used(items, item.dedupKey)
    ensures var queued := StepInstance(i, Consider(item), 0);
            var sent := StepInstance(queued, Dispatch, 0);
            Starts(queued.d, Dispatch) && queued.history == i.history &&
            HasSent(StepInstance(sent, Settle, 0), settings, items + [item])
  {
    var d := AfterConsider(settings, i.d, item, 0);
    assert VerdictOn(settings, i.d, item, 0) == QueuedUp;
    assert d.queue == [item];
    forall key | d.lastNotifiedAt.Has(key) ensures Used(items + [item], key) {
      if key == item.dedupKey {
        assert (items + [item])[|items|].dedupKey == key;
      } else {
        assert i.d.lastNotifiedAt.Has(key);
        var k :| 0 <= k < |items| && items[k].dedupKey == key;
        assert (items + [item])[k].dedupKey == key;
      }
    }
  }

  lemma RoundRuns(p: Process, settings: Config, items: seq<Queued>, item: Queued)
    requires Settled(p, settings, items) && |items| < settings.maxPerHour && Active(settings)
    requires MeetsThreshold(item.finding.severity, settings.minSeverity) && !Used(items, item.dedupKey)
    ensures var events := Round(item, settings);
            var q := RunFrom(p, events);
            Settled(q, settings, items + [item]) && q.log == p.log + [0] &&
            Tally(p, events, FreshBuild) == 0 && Tally(p, events, LateArrival) == 0
  {
    RoundSends(p.current.value, settings, items, item);
    RunThree(p, Then(0, Arrive(item, settings)), Then(0, OnCurrent(Dispatch)), Then(0, OnCurrent(Settle)));
  }

  lemma OneMoreRound(p: Process, before: seq<TimedProcess>, settings: Config, items: seq<Queued>, item: Queued)
    requires Settled(RunFrom(p, before), settings, items) && AllZero(RunFrom(p, before).log)
    requires |items| < settings.maxPerHour && Active(settings)
    requires MeetsThreshold(item.finding.severity, settings.minSeverity) && !Used(items, item.dedupKey)
    ensures var events := before + Round(item, settings);
            var q := RunFrom(p, events);
            Settled(q, settings, items + [item]) && AllZero(q.log) && |q.log| == |RunFrom(p, before).log| + 1 &&
            Tally(p, events, FreshBuild) == Tally(p, before, FreshBuild) &&
            Tally(p, events, LateArrival) == Tally(p, before, LateArrival)
  {
    RoundRuns(RunFrom(p, before), settings, items, item);
    RunConcat(p, before, Round(item, settings));
  }

  lemma LastIsNew(items: seq<Queued>, settings: Config)
    requires items != [] && Offerable(items, settings)
    ensures Offerable(items[..|items| - 1], settings)
    ensures !Used(items[..|items| - 1], items[|items| - 1].dedupKey)
  {
  }

  lemma {:induction false} RoundsRun(p: Process, settings: Config, items: seq<Queued>)
    requires Settled(p, settings, []) && Offerable(items, settings) && |items| <= settings.maxPerHour
    requires AllZero(p.log)
    ensures var events := Rounds(items, settings);
            var q := RunFrom(p, events);
            Settled(q, settings, items) && AllZero(q.log) && |q.log| == |p.log| + |items| &&
            Tally(p, events, FreshBuild) == 0 && Tally(p, events, LateArrival) == 0
  {
    if items != [] {
      var init, item := items[..|items| - 1], items[|items| - 1];
      var before, events := Rounds(init, settings), Rounds(items, settings);
      assert events == before + Round(item, settings) && items == init + [item];
      LastIsNew(items, settings);
      RoundsRun(p, settings, init);
      OneMoreRound(p, before, settings, init, item);
    }
  }

  lemma PollRuns(p: Process, settings: Config, items: seq<Queued>)
    requires Settled(p, settings, items)
    ensures var events := PolledReload(settings);
            var q := RunFrom(p, events);
            Settled(q, settings, []) && q.log == p.log &&
            Tally(p, events, FreshBuild) == 1 && Tally(p, events, LateArrival) == 0
  {
    RunThree(p, Then(0, BeginReload), Then(0, Touch(settings)), Then(0, EndReload(0, settings)));
  }

  /** A run without arrivals during a reload, `builds` fresh notifiers and `count` dispatches, all at
      time zero, after which the notifier has sent exactly these. */
  ghost predicate HasRun(events: seq<TimedProcess>, settings: Config, items: seq<Queued>, count: nat, builds: nat)
  {
    var p := RunProcess(events);
    Settled(p, settings, items) && AllZero(p.log) && |p.log| == count &&
    FreshBuilds(events) == builds && Tally(FRESH_PROCESS, events, LateArrival) == 0
  }

  lemma FirstLife(items: seq<Queued>, settings: Config)
    requires Offerable(items, settings) && |items| <= settings.maxPerHour
    ensures HasRun([Then(0, Touch(settings))] + Rounds(items, settings), settings, items, |items|, 0)
  {
    var boot := [Then(0, Touch(settings))];
    RunOne(FRESH_PROCESS, boot[0]);
    RoundsRun(RunProcess(boot), settings, items);
    RunConcat(FRESH_PROCESS, boot, Rounds(items, settings));
  }

  lemma NextLife(p: Process, items: seq<Queued>, settings: Config)
    requires Offerable(items, settings) && |items| <= settings.maxPerHour
    requires Settled(p, settings, items) && AllZero(p.log)
    ensures var events := PolledReload(settings) + Rounds(items, settings);
            var q := RunFrom(p, events);
            Settled(q, settings, items) && AllZero(q.log) && |q.log| == |p.log| + |items| &&
            Tally(p, events, FreshBuild) == 1 && Tally(p, events, LateArrival) == 0
  {
    PollRuns(p, settings, items);
    RoundsRun(RunFrom(p, PolledReload(settings)), settings, items);
    RunConcat(p, PolledReload(settings), Rounds(items, settings));
  }

  function Repeated(n: nat, m: nat): nat { if n == 0 then m else Repeated(n - 1, m) + m }

  lemma {:induction false} RepeatedIsProduct(n: nat, m: nat)
    ensures Repeated(n, m) == (1 + n) * m
  {
    if n > 0 { RepeatedIsProduct(n - 1, m); }
  }

  lemma OneMoreLife(before: seq<TimedProcess>, items: seq<Queued>, settings: Config, count: nat, builds: nat)
    requires Offerable(items, settings) && |items| <= settings.maxPerHour
    requires HasRun(before, settings, items, count, builds)
    ensures HasRun(before + (PolledReload(settings) + Rounds(items, settings)), settings, items,
                   count + |items|, builds + 1)
  {
    NextLife(RunProcess(before), items, settings);
    RunConcat(FRESH_PROCESS, before, PolledReload(settings) + Rounds(items, settings));
  }

  lemma {:induction false} LivesRun(items: seq<Queued>, settings: Config, n: nat)
    requires Offerable(items, settings) && |items| <= settings.maxPerHour
    ensures HasRun(Lives(items, settings, n), settings, items, Repeated(n, |items|), n)
  {
    if n == 0 {
      FirstLife(items, settings);
    } else {
      LivesRun(items, settings, n - 1);
      OneMoreLife(Lives(items, settings, n - 1), items, settings, Repeated(n - 1, |items|), n - 1);
    }
  }

  predicate AllAtZero(events: seq<TimedProcess>, max: int)
  {
    forall k :: 0 <= k < |events| ==> events[k].time == 0 && CeilingIs(events[k].event, max)
  }

  lemma {:induction false} RoundsAtZero(items: seq<Queued>, settings: Config)
    ensures AllAtZero(Rounds(items, settings), settings.maxPerHour)
  {
    if items != [] { RoundsAtZero(items[..|items| - 1], settings); }
  }

  lemma {:induction false} LivesAtZero(items: seq<Queued>, settings: Config, n: nat)
    ensures AllAtZero(Lives(items, settings, n), settings.maxPerHour)
  {
    RoundsAtZero(items, settings);
    if n > 0 { LivesAtZero(items, settings, n - 1); }
  }

  lemma {:induction false} CountZeros(log: seq<int>)
    requires AllZero(log)
    ensures CountIn(log, 0, HOUR) == |log|
  {
    if log != [] { CountZeros(log[..|log| - 1]); }
  }

  /** The bound cannot be improved: for every ceiling and every `n` there is a run in which `n`
      status requests come in during reloads, nothing arrives during one, and an hour holds
      `1 + n` times the ceiling. From one such request on, a ceiling of at least one is broken. */
  lemma HourlyBoundReached(items: seq<Queued>, settings: Config, n: nat)
    requires Offerable(items, settings) && |items| == settings.maxPerHour
    ensures var events := Lives(items, settings, n);
            Steady(events, settings.maxPerHour) && FreshBuilds(events) == n &&
            Tally(FRESH_PROCESS, events, LateArrival) == 0 &&
            CountIn(RunProcess(events).log, 0, 3_600_000) == (1 + n) * settings.maxPerHour &&
            (n >= 1 && settings.maxPerHour >= 1 ==> CountIn(RunProcess(events).log, 0, 3_600_000) > settings.maxPerHour)
  {
    LivesRun(items, settings, n);
    LivesAtZero(items, settings, n);
    CountZeros(RunProcess(Lives(items, settings, n)).log);
    RepeatedIsProduct(n, |items|);
    TimesMonotone(if n >= 1 then 2 else 0, 1 + n, |items|);
  }
}
