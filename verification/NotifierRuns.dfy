/** Steps of one notifier's digest side: what is conserved, and how often it may send. */
module NotifierRuns {
  import opened Options
  import opened OrderedMaps
  import opened Digests
  import opened Notifiers

  /** What can happen to one notifier between two waits. */
  datatype Event = Consider(item: Queued) | TimerFires | Dispatch | Settle | ClearTimer | Stats

  predicate Starts(d: DigestState, e: Event)
  {
    (e.TimerFires? && d.timer && CanDispatch(d)) || (e.Dispatch? && CanDispatch(d))
  }

  function After(c: Config, d: DigestState, e: Event, t: int): DigestState
  {
    match e
    case Consider(item) => AfterConsider(c, d, item, t)
    case TimerFires => if d.timer then DigestTimerFired(d, t) else d
    case Dispatch => StartDispatch(d, t)
    case Settle => if d.sending then FinishDispatch(d) else d
    case ClearTimer => d.(timer := false)
    case Stats => d.(sent := Prune(d.sent, t - HOUR))
  }

  predicate IsInternal(e: Event) { !e.Consider? }

  // ---------- conservation ----------

  /** The findings the messages list or count as omitted. */
  function Reported(batches: seq<(seq<Queued>, nat)>): nat
  {
    if batches == [] then 0 else
    var last := batches[|batches| - 1];
    var message := Digest(last.0, last.1);
    Reported(batches[..|batches| - 1]) + |message.findings| + message.omittedCount
  }

  lemma ReportedSnoc(batches: seq<(seq<Queued>, nat)>, batch: seq<Queued>, omitted: nat)
    ensures Reported(batches + [(batch, omitted)]) == Reported(batches) + |batch| + omitted
  {
    assert (batches + [(batch, omitted)])[..|batches|] == batches;
    var rest := DigestSummarises(batch, omitted);
  }

  /** How many findings wait, in the queue or in its overflow count. */
  function Pending(d: DigestState): nat { |d.queue| + d.omitted }

  lemma ConsiderAdds(c: Config, d: DigestState, item: Queued, t: int)
    ensures Pending(AfterConsider(c, d, item, t)) ==
            Pending(d) + if VerdictOn(c, d, item, t) == QueuedUp then 1 else 0
  {
  }

  /** No other step changes what waits, except a dispatch, which takes all of it. */
  lemma OthersTakeAllOrNothing(c: Config, d: DigestState, e: Event, t: int)
    requires !e.Consider?
    ensures Pending(After(c, d, e, t)) == if Starts(d, e) then 0 else Pending(d)
  {
  }

  // ---------- the hourly ceiling ----------

  function AtLeastZero(n: int): nat { if n < 0 then 0 else n }

  ghost predicate Ascending(log: seq<int>) { forall i, j :: 0 <= i < j < |log| ==> log[i] <= log[j] }

  /** Any `m + 1` consecutive dispatches span more than an hour. */
  ghost predicate Spaced(log: seq<int>, m: nat)
  {
    forall i, j :: 0 <= i <= j < |log| && j == i + m ==> log[j] - log[i] > HOUR
  }

  /** The timestamps kept are the dispatches that a count made from now on could still include. */
  ghost predicate Remembers(sent: seq<int>, log: seq<int>, now: int)
  {
    |sent| <= |log| && sent == log[|log| - |sent|..] &&
    forall k :: 0 <= k < |log| - |sent| ==> log[k] < now - HOUR
  }

  /** At time `gate`, no earlier than any dispatch, fewer than `max` fell in the hour before. */
  ghost predicate PassedGate(log: seq<int>, max: int, gate: int, now: int)
  {
    max >= 1 && gate <= now && (forall k :: 0 <= k < |log| ==> log[k] <= gate) &&
    (|log| >= max ==> log[|log| - max] < gate - HOUR)
  }

  ghost predicate Bounded(log: seq<int>, max: int, now: int)
  {
    Ascending(log) && Spaced(log, AtLeastZero(max)) && forall k :: 0 <= k < |log| ==> log[k] <= now
  }

  ghost predicate Governed(d: DigestState, log: seq<int>, max: int, gate: int, now: int)
  {
    Bounded(log, max, now) && Remembers(d.sent, log, now) && (d.queue != [] ==> PassedGate(log, max, gate, now))
  }

  lemma {:induction false} PruneRemembers(sent: seq<int>, log: seq<int>, now: int, t: int)
    requires Remembers(sent, log, now) && now <= t
    ensures Remembers(Prune(sent, t - HOUR), log, t)
    decreases |sent|
  {
    if sent != [] && sent[0] < t - HOUR {
      assert sent[0] == log[|log| - |sent|];
      assert sent[1..] == log[|log| - |sent| + 1..];
      assert Remembers(sent[1..], log, t);
      PruneRemembers(sent[1..], log, t, t);
    }
  }

  lemma TimePasses(d: DigestState, log: seq<int>, max: int, gate: int, now: int, t: int)
    requires Governed(d, log, max, gate, now) && now <= t
    ensures Governed(d, log, max, gate, t)
  {
  }

  /** Passing the ceiling test is what opens the gate. */
  lemma TestOpensGate(sent: seq<int>, log: seq<int>, max: int, now: int)
    requires Remembers(sent, log, now) && |sent| < max && forall k :: 0 <= k < |log| ==> log[k] <= now
    ensures PassedGate(log, max, now, now)
  {
  }

  lemma ConsiderKeeps(c: Config, d: DigestState, item: Queued, log: seq<int>, gate: int, t: int) returns (next: int)
    requires Governed(d, log, c.maxPerHour, gate, t)
    ensures Governed(AfterConsider(c, d, item, t), log, c.maxPerHour, next, t)
  {
    next := gate;
    PruneRemembers(d.sent, log, t, t);
    if VerdictOn(c, d, item, t) == QueuedUp && d.queue == [] {
      next := t;
      TestOpensGate(Prune(d.sent, t - HOUR), log, c.maxPerHour, t);
    }
  }

  lemma DispatchKeeps(d: DigestState, log: seq<int>, max: int, gate: int, t: int)
    requires Governed(d, log, max, gate, t) && CanDispatch(d)
    ensures Governed(StartDispatch(d, t), log + [t], max, gate, t)
  {
    var longer := log + [t];
    DispatchRemembers(d.sent, log, t);
    forall i, j | 0 <= i <= j < |longer| && j == i + AtLeastZero(max) ensures longer[j] - longer[i] > HOUR {
      if j == |log| { assert longer[i] == log[|log| - max]; }
    }
  }

  lemma DispatchRemembers(sent: seq<int>, log: seq<int>, t: int)
    requires Remembers(sent, log, t)
    ensures Remembers(sent + [t], log + [t], t)
  {
    var n := |log| - |sent|;
    assert (log + [t])[n..] == log[n..] + [t];
  }

  /** The log of dispatches after a step. */
  function Logged(d: DigestState, e: Event, t: int, log: seq<int>): seq<int>
  {
    if Starts(d, e) then log + [t] else log
  }

  lemma StepKeeps(c: Config, d: DigestState, e: Event, log: seq<int>, gate: int, now: int, t: int) returns (next: int)
    requires Governed(d, log, c.maxPerHour, gate, now) && now <= t
    ensures Governed(After(c, d, e, t), Logged(d, e, t, log), c.maxPerHour, next, t)
  {
    TimePasses(d, log, c.maxPerHour, gate, now, t);
    next := gate;
    match e {
      case Consider(item) => next := ConsiderKeeps(c, d, item, log, gate, t);
      case Stats => PruneRemembers(d.sent, log, t, t);
      case TimerFires =>
        if d.timer && CanDispatch(d) { DispatchKeeps(d.(timer := false), log, c.maxPerHour, gate, t); }
      case Dispatch =>
        if CanDispatch(d) { DispatchKeeps(d, log, c.maxPerHour, gate, t); }
      case _ =>
    }
  }

  // ---------- counting a window ----------

  function CountIn(log: seq<int>, lo: int, hi: int): nat
  {
    if log == [] then 0
    else CountIn(log[..|log| - 1], lo, hi) + if lo <= log[|log| - 1] <= hi then 1 else 0
  }

  lemma {:induction false} CountAbove(log: seq<int>, lo: int, hi: int, k: nat)
    requires k <= |log| && forall i :: 0 <= i < k ==> log[i] < lo
    ensures CountIn(log, lo, hi) <= |log| - k
  {
    if log != [] {
      CountAbove(log[..|log| - 1], lo, hi, if k == |log| then k - 1 else k);
    }
  }

  /** A spaced log has at most `m` entries in any closed hour. */
  lemma {:induction false} SpacedCount(log: seq<int>, m: nat, lo: int)
    requires Ascending(log) && Spaced(log, m)
    ensures CountIn(log, lo, lo + HOUR) <= m
  {
    if log != [] {
      var init, last := log[..|log| - 1], log[|log| - 1];
      SpacedCount(init, m, lo);
      if lo <= last <= lo + HOUR {
        var i := |log| - 1 - m;
        if i >= 0 {
          assert log[|log| - 1] - log[i] > HOUR;
        }
        CountAbove(log, lo, lo + HOUR, if i < 0 then 0 else i + 1);
      }
    }
  }
}
