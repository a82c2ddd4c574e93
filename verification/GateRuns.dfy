/**
 What the notifier's gates decide, in the operator's terms: for one arrival, and over whole runs of
 the process. Severities are compared by their positions in SEVERITY_ORDER.
 */
module GateRuns {
  import opened Options
  import opened OrderedMaps
  import opened Digests
  import opened Notifiers
  import opened NotifierRuns
  import opened ReloadRuns

  ghost predicate At(k: nat, s: Severity) { k < |SEVERITY_ORDER| && SEVERITY_ORDER[k] == s }

  lemma PositionIsRank(k: nat, s: Severity)
    requires At(k, s)
    ensures Rank(s) == k
  {
  }

  /** Switched on, with a channel that can deliver. */
  ghost predicate Deliverable(c: Config)
  {
    c.enabled && exists k :: 0 <= k < |c.channels| && c.channels[k].configured
  }

  /** The key was last accepted so recently that the finding is held back. */
  ghost predicate TooSoon(c: Config, last: Option<int>, now: int)
  {
    last.Some? && now - last.value < 1000 * c.throttleSeconds
  }

  /** The five verdicts, in order of the gates: `s` and `m` are the positions of the finding's severity and of
      the lowest one wanted, `last` when its key was last accepted, `sent` how many digests went in the last hour. */
  ghost predicate Decides(v: Verdict, c: Config, s: nat, m: nat, last: Option<int>, sent: nat, now: int)
  {
    (v == Disabled <==> !Deliverable(c)) &&
    (v == BelowThreshold <==> Deliverable(c) && s > m) &&
    (v == Throttled <==> Deliverable(c) && s <= m && TooSoon(c, last, now)) &&
    (v == RateLimited <==> Deliverable(c) && s <= m && !TooSoon(c, last, now) && sent >= c.maxPerHour) &&
    (v == QueuedUp <==> Deliverable(c) && s <= m && !TooSoon(c, last, now) && sent < c.maxPerHour)
  }

  lemma ActiveIsDeliverable(c: Config)
    ensures Active(c) <==> Deliverable(c)
  {
    if ch :| ch in c.channels && ch.configured {
      var k :| 0 <= k < |c.channels| && c.channels[k] == ch;
    }
  }

  function LastAccepted(d: DigestState, key: string): Option<int>
  {
    if d.lastNotifiedAt.Has(key) then Some(d.lastNotifiedAt.vals[key]) else None
  }

  /** In a log that only grows later, the entries kept are those of the last hour. */
  lemma {:induction false} PruneCounts(sent: seq<int>, now: int)
    requires Ascending(sent) && forall k :: 0 <= k < |sent| ==> sent[k] <= now
    ensures |Prune(sent, now - 3_600_000)| == CountIn(sent, now - 3_600_000, now)
    decreases |sent|
  {
    if sent != [] {
      if sent[0] < now - 3_600_000 {
        PruneCounts(sent[1..], now);
        CountCons(sent[0], sent[1..], now - 3_600_000, now);
        assert [sent[0]] + sent[1..] == sent;
      } else {
        CountAll(sent, now - 3_600_000, now);
      }
    }
  }

  lemma {:induction false} CountCons(t: int, log: seq<int>, lo: int, hi: int)
    ensures CountIn([t] + log, lo, hi) == CountIn(log, lo, hi) + if lo <= t <= hi then 1 else 0
  {
    if log == [] {
      assert [t] + log == [t] && [t][..0] == [];
    } else {
      assert ([t] + log)[..|log|] == [t] + log[..|log| - 1];
      CountCons(t, log[..|log| - 1], lo, hi);
    }
  }

  lemma {:induction false} CountAll(log: seq<int>, lo: int, hi: int)
    requires forall k :: 0 <= k < |log| ==> lo <= log[k] <= hi
    ensures CountIn(log, lo, hi) == |log|
  {
    if log != [] { CountAll(log[..|log| - 1], lo, hi); }
  }

  /** One arrival: the verdict of the gates, from the settings, the throttle table and the dispatches held. */
  lemma GateDecides(c: Config, d: DigestState, item: Queued, now: int, s: nat, m: nat)
    requires At(s, item.finding.severity) && At(m, c.minSeverity)
    requires Ascending(d.sent) && forall k :: 0 <= k < |d.sent| ==> d.sent[k] <= now
    ensures Decides(VerdictOn(c, d, item, now), c, s, m, LastAccepted(d, item.dedupKey),
                    CountIn(d.sent, now - 3_600_000, now), now)
  {
    PositionIsRank(s, item.finding.severity);
    PositionIsRank(m, c.minSeverity);
    ActiveIsDeliverable(c);
    PruneCounts(d.sent, now);
  }

  /** What a finding that gets through leaves behind: its key remembered with the time, itself at the end of a
      queue of at most 200 or in the overflow count, and a timer set. One that does not leaves the queue alone. */
  lemma GateLeaves(c: Config, d: DigestState, item: Queued, now: int)
    ensures var after := AfterConsider(c, d, item, now);
            if VerdictOn(c, d, item, now) == QueuedUp then
              LastAccepted(after, item.dedupKey) == Some(now) && after.timer &&
              (if |d.queue| < 200 then after.queue == d.queue + [item] && after.omitted == d.omitted
               else after.queue == d.queue && after.omitted == d.omitted + 1) &&
              forall key :: key != item.dedupKey ==>
                LastAccepted(after, key) == LastAccepted(d, key) ||
                (LastAccepted(after, key) == None && d.lastNotifiedAt.Size() >= 4096)
            else after.queue == d.queue && after.omitted == d.omitted && after.lastNotifiedAt == d.lastNotifiedAt
  {
  }

  /** The throttle remembers at most 4096 keys. */
  lemma ThrottleBounded(c: Config, d: DigestState, item: Queued, now: int)
    requires d.lastNotifiedAt.Valid() && d.lastNotifiedAt.Size() <= 4096
    ensures var after := AfterConsider(c, d, item, now).lastNotifiedAt;
            after.Valid() && after.Size() <= 4096
  {
    d.lastNotifiedAt.SetBoundedKeepsValid(4096, item.dedupKey, now);
  }

  // ---------- over whole runs ----------

  /** When a finding with this key was last given the verdict `queued`, by whichever notifier. */
  function LastQueued(events: seq<TimedProcess>, key: string): Option<int>
  {
    if events == [] then None
    else
      var init, last := events[..|events| - 1], events[|events| - 1];
      if IsQueued(RunProcess(init), last.event, last.time) && last.event.item.dedupKey == key then Some(last.time)
      else LastQueued(init, key)
  }

  /** With reloads quiet there is one notifier that counts. */
  ghost predicate OneLive(p: Process)
  {
    p.gone == [] && if p.current.Some? then p.retiring == [] else |p.retiring| <= 1
  }

  /** The throttle knows when each key in it was last queued; and until it is full, every key ever queued is in it. */
  ghost predicate RemembersKeys(d: DigestState, events: seq<TimedProcess>)
  {
    d.lastNotifiedAt.Valid() && d.lastNotifiedAt.Size() <= 4096 &&
    (forall key :: d.lastNotifiedAt.Has(key) ==> LastQueued(events, key) == Some(d.lastNotifiedAt.vals[key])) &&
    (d.lastNotifiedAt.Size() < 4096 ==> forall key :: LastQueued(events, key).Some? ==> d.lastNotifiedAt.Has(key))
  }

  ghost predicate NothingQueued(events: seq<TimedProcess>)
  {
    forall key :: LastQueued(events, key) == None
  }

  ghost predicate KeysOk(p: Process, events: seq<TimedProcess>)
  {
    OneLive(p) && (p.current.Some? ==> RemembersKeys(p.current.value.d, events)) &&
    (|p.retiring| == 1 ==> RemembersKeys(p.retiring[0].d, events)) &&
    (p.current.None? && p.retiring == [] ==> NothingQueued(events))
  }

  lemma LastQueuedSnoc(events: seq<TimedProcess>, e: TimedProcess, key: string)
    ensures LastQueued(events + [e], key) ==
            if IsQueued(RunProcess(events), e.event, e.time) && e.event.item.dedupKey == key then Some(e.time)
            else LastQueued(events, key)
  {
    assert (events + [e])[..|events|] == events;
  }

  ghost predicate Stamp(throttle: OrderedMap<string, int>, stamped: string, t: int, after: OrderedMap<string, int>)
  {
    after.Has(stamped) && after.vals[stamped] == t &&
    forall key :: key != stamped && after.Has(key) ==> throttle.Has(key) && after.vals[key] == throttle.vals[key]
  }

  lemma StampSize(throttle: OrderedMap<string, int>, limit: nat, stamped: string, t: int)
    requires throttle.Valid() && throttle.Size() <= limit && limit >= 1
    ensures var after := throttle.SetBounded(limit, stamped, t);
            after.Valid() && after.Size() == if throttle.Has(stamped) || throttle.Size() == limit then throttle.Size()
                                             else throttle.Size() + 1
  {
    throttle.SetBoundedKeepsValid(limit, stamped, t);
    assert |throttle.Victims(limit, stamped) + throttle.SetBounded(limit, stamped, t).order| ==
           if throttle.Has(stamped) then throttle.Size() else throttle.Size() + 1;
  }

  lemma StampValues(throttle: OrderedMap<string, int>, limit: nat, stamped: string, t: int)
    ensures Stamp(throttle, stamped, t, throttle.SetBounded(limit, stamped, t))
    ensures throttle.Has(stamped) || throttle.Size() < limit ==>
              forall key :: throttle.Has(key) ==> throttle.SetBounded(limit, stamped, t).Has(key)
  {
  }

  /** Setting a key behind a limit crowds out no other until the limit is reached. */
  lemma Stamped(throttle: OrderedMap<string, int>, limit: nat, stamped: string, t: int, after: OrderedMap<string, int>)
    requires throttle.Valid() && throttle.Size() <= limit && limit >= 1
    requires after == throttle.SetBounded(limit, stamped, t)
    ensures after.Valid() && after.Size() <= limit && Stamp(throttle, stamped, t, after)
    ensures after.Size() < limit ==> throttle.Size() < limit && forall key :: throttle.Has(key) ==> after.Has(key)
  {
    StampSize(throttle, limit, stamped, t);
    StampValues(throttle, limit, stamped, t);
  }

  lemma QueuedRemembers(d: DigestState, item: Queued, t: int, after: DigestState, events: seq<TimedProcess>,
                        more: seq<TimedProcess>)
    requires RemembersKeys(d, events)
    requires after.lastNotifiedAt == d.lastNotifiedAt.SetBounded(4096, item.dedupKey, t)
    requires forall key :: LastQueued(more, key) == if item.dedupKey == key then Some(t) else LastQueued(events, key)
    ensures RemembersKeys(after, more)
  {
    Stamped(d.lastNotifiedAt, 4096, item.dedupKey, t, after.lastNotifiedAt);
  }

  lemma SameRemembers(d: DigestState, after: DigestState, events: seq<TimedProcess>, more: seq<TimedProcess>)
    requires RemembersKeys(d, events) && after.lastNotifiedAt == d.lastNotifiedAt
    requires forall key :: LastQueued(more, key) == LastQueued(events, key)
    ensures RemembersKeys(after, more)
  {
  }

  lemma ArrivalRemembers(i: Instance, item: Queued, t: int, events: seq<TimedProcess>, more: seq<TimedProcess>)
    requires RemembersKeys(i.d, events)
    requires forall key :: LastQueued(more, key) ==
               if VerdictOn(i.config, i.d, item, t) == QueuedUp && item.dedupKey == key then Some(t)
               else LastQueued(events, key)
    ensures RemembersKeys(StepInstance(i, Consider(item), t).d, more)
  {
    var after := StepInstance(i, Consider(item), t).d;
    if VerdictOn(i.config, i.d, item, t) == QueuedUp {
      QueuedRemembers(i.d, item, t, after, events, more);
    } else {
      SameRemembers(i.d, after, events, more);
    }
  }

  lemma InternalKeepsKeys(i: Instance, e: Event, t: int)
    requires IsInternal(e)
    ensures StepInstance(i, e, t).d.lastNotifiedAt == i.d.lastNotifiedAt
  {
  }

  lemma FreshRemembers(events: seq<TimedProcess>)
    requires NothingQueued(events)
    ensures RemembersKeys(IDLE_DIGEST, events)
  {
  }

  lemma StepKeys(p: Process, events: seq<TimedProcess>, e: TimedProcess)
    requires p == RunProcess(events) && KeysOk(p, events)
    requires Builds(p, e.event) ==> p.retiring == []
    ensures KeysOk(StepProcess(p, e.event, e.time), events + [e])
  {
    var more := events + [e];
    if p.current.None? && p.retiring == [] { FreshRemembers(events); }
    forall key ensures LastQueued(more, key) ==
        if IsQueued(p, e.event, e.time) && e.event.item.dedupKey == key then Some(e.time) else LastQueued(events, key) {
      LastQueuedSnoc(events, e, key);
    }
    match e.event {
      case Arrive(item, settings) => ArrivalRemembers(TheNotifier(p, settings), item, e.time, events, more);
      case OnCurrent(event) =>
        if p.current.Some? && IsInternal(event) { InternalKeepsKeys(p.current.value, event, e.time); }
      case OnRetiring(k, event) =>
        if k < |p.retiring| && IsInternal(event) { InternalKeepsKeys(p.retiring[k], event, e.time); }
      case _ =>
    }
  }

  lemma QuietPrefix(events: seq<TimedProcess>)
    requires events != [] && QuietReloads(events)
    ensures QuietReloads(events[..|events| - 1])
    ensures Builds(RunProcess(events[..|events| - 1]), events[|events| - 1].event) ==>
              RunProcess(events[..|events| - 1]).retiring == []
  {
    var init := events[..|events| - 1];
    forall n | 0 <= n < |init| && Builds(RunProcess(init[..n]), init[n].event)
      ensures RunProcess(init[..n]).retiring == []
    {
      assert init[..n] == events[..n] && init[n] == events[n];
    }
  }

  lemma {:induction false} RunsRememberKeys(events: seq<TimedProcess>)
    requires QuietReloads(events)
    ensures KeysOk(RunProcess(events), events)
  {
    if events != [] {
      var init := events[..|events| - 1];
      QuietPrefix(events);
      RunsRememberKeys(init);
      RememberOneMore(events, init);
    }
  }

  lemma RememberOneMore(events: seq<TimedProcess>, init: seq<TimedProcess>)
    requires events != [] && init == events[..|events| - 1] && KeysOk(RunProcess(init), init)
    requires Builds(RunProcess(init), events[|init|].event) ==> RunProcess(init).retiring == []
    ensures KeysOk(RunProcess(events), events)
  {
    StepKeys(RunProcess(init), init, events[|init|]);
    assert init + [events[|init|]] == events;
  }

  /** What the judging notifier knows of the last hour is what has happened. */
  lemma HeldIsLogged(i: Instance, max: int, now: int, t: int)
    requires Within(i, max, now) && now <= t
    ensures Ascending(i.d.sent) && forall k :: 0 <= k < |i.d.sent| ==> i.d.sent[k] <= t
    ensures CountIn(i.d.sent, t - 3_600_000, t) == CountIn(i.history, t - 3_600_000, t)
  {
    var n := |i.history| - |i.d.sent|;
    assert i.history == i.history[..n] + i.d.sent;
    CountConcat(i.history[..n], i.d.sent, t - 3_600_000, t);
    CountNone(i.history[..n], t - 3_600_000, t);
  }

  lemma {:induction false} CountConcat(a: seq<int>, b: seq<int>, lo: int, hi: int)
    ensures CountIn(a + b, lo, hi) == CountIn(a, lo, hi) + CountIn(b, lo, hi)
  {
    if b == [] {
      assert a + b == a;
    } else {
      assert (a + b)[..|a + b| - 1] == a + b[..|b| - 1];
      CountConcat(a, b[..|b| - 1], lo, hi);
    }
  }

  lemma {:induction false} CountNone(log: seq<int>, lo: int, hi: int)
    requires forall k :: 0 <= k < |log| ==> log[k] < lo
    ensures CountIn(log, lo, hi) == 0
  {
    if log != [] { CountNone(log[..|log| - 1], lo, hi); }
  }

  lemma OneLiveCounts(p: Process, settings: Config, lo: int)
    requires OneLive(p) && AllCounted(p, lo) && (p.current.None? ==> p.retiring == [])
    ensures CountIn(TheNotifier(p, settings).history, lo, lo + HOUR) == CountIn(p.log, lo, lo + HOUR)
  {
  }

  /** The notifier that judges an arrival: the shared one, or one built with the settings in force. */
  lemma JudgeIsWithin(events: seq<TimedProcess>, settings: Config, max: int, t: int)
    requires Steady(events, max) && QuietReloads(events) && settings.maxPerHour == max
    requires events != [] ==> events[|events| - 1].time <= t
    requires RunProcess(events).current.None? ==> RunProcess(events).retiring == []
    ensures var p := RunProcess(events);
            var i := TheNotifier(p, settings);
            RemembersKeys(i.d, events) && Within(i, max, t) &&
            CountIn(i.history, t - 3_600_000, t) == CountIn(p.log, t - 3_600_000, t)
  {
    var p := RunProcess(events);
    RunsRememberKeys(events);
    if p.current.None? { FreshRemembers(events); }
    BuiltWithin(settings, t);
    if events != [] {
      RunsAreOk(events, max, t - HOUR);
      LaterProcess(p, max, events[|events| - 1].time, t);
    }
    OneLiveCounts(p, settings, t - HOUR);
  }

  /** Over any run with one clock, one ceiling and quiet reloads: what an arrival is told. Its key counts from when
      it was last queued, by this notifier or one before it, unless it has been crowded out of a full throttle; the
      ceiling counts the digests the process has sent. */
  lemma ArrivalDecided(events: seq<TimedProcess>, item: Queued, settings: Config, max: int, t: int, s: nat, m: nat)
    requires Steady(events, max) && QuietReloads(events) && settings.maxPerHour == max
    requires events != [] ==> events[|events| - 1].time <= t
    requires RunProcess(events).current.None? ==> RunProcess(events).retiring == []
    requires At(s, item.finding.severity) && At(m, TheNotifier(RunProcess(events), settings).config.minSeverity)
    ensures var p := RunProcess(events);
            var i := TheNotifier(p, settings);
            var forgotten := i.d.lastNotifiedAt.Size() == 4096 && !i.d.lastNotifiedAt.Has(item.dedupKey);
            var last := if forgotten then None else LastQueued(events, item.dedupKey);
            Decides(VerdictOn(i.config, i.d, item, t), i.config, s, m, last, CountIn(p.log, t - 3_600_000, t), t)
  {
    var i := TheNotifier(RunProcess(events), settings);
    JudgeIsWithin(events, settings, max, t);
    HeldIsLogged(i, max, t, t);
    GateDecides(i.config, i.d, item, t, s, m);
  }

  lemma {:induction false} QuietUpTo(events: seq<TimedProcess>, n: nat)
    requires n <= |events| && QuietReloads(events)
    ensures QuietReloads(events[..n])
    decreases |events|
  {
    if n == |events| {
      assert events[..n] == events;
    } else {
      QuietPrefix(events);
      QuietUpTo(events[..|events| - 1], n);
      assert events[..|events| - 1][..n] == events[..n];
    }
  }

  /** Two findings of one key that are both queued are at least the throttle's span apart, unless the key has been
      crowded out of a full throttle by the second. */
  lemma QueuedApart(events: seq<TimedProcess>, j: nat, n: nat)
    requires j < n < |events| && QuietReloads(events)
    requires forall a, b :: 0 <= a < b < |events| ==> events[a].time <= events[b].time
    requires IsQueued(RunProcess(events[..j]), events[j].event, events[j].time)
    requires IsQueued(RunProcess(events[..n]), events[n].event, events[n].time)
    requires events[j].event.item.dedupKey == events[n].event.item.dedupKey
    requires var throttle := TheNotifier(RunProcess(events[..n]), events[n].event.settings).d.lastNotifiedAt;
             throttle.Has(events[n].event.item.dedupKey) || throttle.Size() != 4096
    ensures var i := TheNotifier(RunProcess(events[..n]), events[n].event.settings);
            events[n].time - events[j].time >= 1000 * i.config.throttleSeconds
  {
    var key := events[n].event.item.dedupKey;
    QuietUpTo(events, n);
    RunsRememberKeys(events[..n]);
    var q := LastQueuedSince(events, j, n, key);
    assert LastQueued(events[..n], key).Some?;
  }

  lemma {:induction false} LastQueuedSince(events: seq<TimedProcess>, j: nat, n: nat, key: string) returns (q: nat)
    requires j < n <= |events| && IsQueued(RunProcess(events[..j]), events[j].event, events[j].time)
    requires events[j].event.item.dedupKey == key
    ensures j <= q < n && LastQueued(events[..n], key) == Some(events[q].time)
    decreases n
  {
    var init := events[..n][..n - 1];
    assert init == events[..n - 1] && events[..n][n - 1] == events[n - 1];
    if IsQueued(RunProcess(init), events[n - 1].event, events[n - 1].time) && events[n - 1].event.item.dedupKey == key {
      q := n - 1;
    } else {
      q := LastQueuedSince(events, j, n - 1, key);
    }
  }

  // ---------- what is sent ----------

  /** Everything queued is of a severity its notifier wants. */
  ghost predicate Wanted(queue: seq<Queued>, c: Config)
  {
    forall q, s, m :: q in queue && At(s, q.finding.severity) && At(m, c.minSeverity) ==> s <= m
  }

  ghost predicate AllWanted(p: Process)
  {
    (p.current.Some? ==> Wanted(p.current.value.d.queue, p.current.value.config)) &&
    forall k :: 0 <= k < |p.retiring| ==> Wanted(p.retiring[k].d.queue, p.retiring[k].config)
  }

  lemma StepInstanceWanted(i: Instance, e: Event, t: int)
    requires Wanted(i.d.queue, i.config)
    ensures Wanted(StepInstance(i, e, t).d.queue, i.config)
  {
    if e.Consider? {
      forall s, m | At(s, e.item.finding.severity) && At(m, i.config.minSeverity) &&
                    VerdictOn(i.config, i.d, e.item, t) == QueuedUp ensures s <= m {
        PositionIsRank(s, e.item.finding.severity);
        PositionIsRank(m, i.config.minSeverity);
      }
    }
  }

  lemma StepWanted(p: Process, e: ProcessEvent, t: int)
    requires AllWanted(p)
    ensures AllWanted(StepProcess(p, e, t))
  {
    match e {
      case Arrive(item, settings) => StepInstanceWanted(TheNotifier(p, settings), Consider(item), t);
      case OnCurrent(event) => if p.current.Some? { StepInstanceWanted(p.current.value, event, t); }
      case OnRetiring(k, event) => if k < |p.retiring| { StepInstanceWanted(p.retiring[k], event, t); }
      case _ =>
    }
  }

  lemma {:induction false} RunsWant(events: seq<TimedProcess>)
    ensures AllWanted(RunProcess(events))
  {
    if events != [] {
      var init, last := events[..|events| - 1], events[|events| - 1];
      RunsWant(init);
      StepWanted(RunProcess(init), last.event, last.time);
    }
  }

  /** Over any run of the process: no finding in a digest that is sent is less urgent than the notifier that
      sends it was told to report. */
  lemma NothingBelowThresholdSent(events: seq<TimedProcess>, e: ProcessEvent, item: Queued, s: nat, m: nat)
    requires e.OnCurrent? || e.OnRetiring?
    requires var p := RunProcess(events);
             BatchOf(p, e) != [] && item in BatchOf(p, e)[0].0 && At(s, item.finding.severity) &&
             At(m, if e.OnCurrent? then p.current.value.config.minSeverity else p.retiring[e.which].config.minSeverity)
    ensures s <= m
  {
    RunsWant(events);
  }
}
