/**
 The notifier: the gates a finding passes before a person hears of it, the digest it waits
 in, and the ungated export queue beside it.

 An asynchronous operation is two steps here, the part that runs before the first wait and
 the part that runs after the last; anything may happen in between. A timer is whether it is
 set, and a promise chain is the list of what hangs on it.
 */
module Notifiers {
  import opened Options
  import opened OrderedMaps
  import opened Digests

  const HOUR: int := 3_600_000
  const MAX_EXPORT_BATCH: nat := 200
  const MAX_EXPORT_QUEUE: nat := 10_000
  const MAX_THROTTLE_KEYS: nat := 4096
  const MAX_QUEUED: nat := 200

  datatype Channel = Channel(name: string, deliversEveryFinding: bool, configured: bool)

  /** The settings a notifier is built with, held for its whole life. */
  datatype Config = Config(
    enabled: bool, channels: seq<Channel>, minSeverity: Severity, throttleSeconds: int, maxPerHour: int,
    includeEvidence: bool, syslogIncludeEvidence: bool, sensorId: string
  )

  predicate Active(c: Config) { c.enabled && exists ch :: ch in c.channels && ch.configured }

  predicate Exporting(c: Config) { exists ch :: ch in c.channels && ch.deliversEveryFinding && ch.configured }

  datatype Verdict = QueuedUp | BelowThreshold | Throttled | RateLimited | Disabled

  // ---------- the digest side ----------

  /** `started` counts dispatches: the promise in flight is that of dispatch number `started`. */
  datatype DigestState = DigestState(
    lastNotifiedAt: OrderedMap<string, int>, sent: seq<int>, queue: seq<Queued>, omitted: nat,
    timer: bool, sending: bool, started: nat
  )

  /** A notifier that has queued and sent nothing yet, with throttle and ceiling history carried over. */
  function CarriedDigest(lastNotifiedAt: OrderedMap<string, int>, sent: seq<int>): DigestState
  {
    DigestState(lastNotifiedAt, sent, [], 0, false, false, 0)
  }

  const IDLE_DIGEST: DigestState := CarriedDigest(OrderedMap([], map[]), [])

  /** Drops timestamps from the front while they are older than the cutoff. */
  function Prune(sent: seq<int>, cutoff: int): seq<int>
  {
    if sent != [] && sent[0] < cutoff then Prune(sent[1..], cutoff) else sent
  }

  predicate InThrottle(c: Config, d: DigestState, key: string, now: int)
  {
    d.lastNotifiedAt.Has(key) && now - d.lastNotifiedAt.vals[key] < c.throttleSeconds * 1000
  }

  /** A finding gets through: the throttle remembers the key, and the finding joins the queue or its overflow count. */
  function Accept(d: DigestState, item: Queued, now: int): DigestState
  {
    d.(lastNotifiedAt := d.lastNotifiedAt.SetBounded(MAX_THROTTLE_KEYS, item.dedupKey, now),
       queue := if |d.queue| >= MAX_QUEUED then d.queue else d.queue + [item],
       omitted := if |d.queue| >= MAX_QUEUED then d.omitted + 1 else d.omitted,
       timer := true)
  }

  function VerdictOn(c: Config, d: DigestState, item: Queued, now: int): Verdict
  {
    if !Active(c) then Disabled
    else if !MeetsThreshold(item.finding.severity, c.minSeverity) then BelowThreshold
    else if InThrottle(c, d, item.dedupKey, now) then Throttled
    else if |Prune(d.sent, now - HOUR)| >= c.maxPerHour then RateLimited
    else QueuedUp
  }

  function AfterConsider(c: Config, d: DigestState, item: Queued, now: int): DigestState
  {
    match VerdictOn(c, d, item, now)
    case QueuedUp => Accept(d.(sent := Prune(d.sent, now - HOUR)), item, now)
    case RateLimited => d.(sent := Prune(d.sent, now - HOUR))
    case _ => d
  }

  predicate CanDispatch(d: DigestState) { !d.sending && d.queue != [] }

  function StartDispatch(d: DigestState, now: int): DigestState
  {
    if CanDispatch(d)
    then d.(sending := true, started := d.started + 1, queue := [], omitted := 0, sent := d.sent + [now])
    else d
  }

  function FinishDispatch(d: DigestState): DigestState
  {
    d.(sending := false, timer := d.timer || d.queue != [])
  }

  function DigestTimerFired(d: DigestState, now: int): DigestState
  {
    StartDispatch(d.(timer := false), now)
  }

  // ---------- the export side ----------

  datatype Task = Waiting | Sending(batch: seq<Notifiable>) | Done

  datatype ExportState = ExportState(queue: seq<Notifiable>, timer: bool, dropped: nat, chain: seq<Task>)

  const IDLE_EXPORT: ExportState := ExportState([], false, 0, [])

  /** Another send hung on the end of the chain. */
  function ChainSend(e: ExportState): ExportState { e.(chain := e.chain + [Waiting]) }

  function Enqueue(c: Config, e: ExportState, f: Notifiable): ExportState
  {
    if !Exporting(c) then e
    else if |e.queue| >= MAX_EXPORT_QUEUE then e.(dropped := e.dropped + 1)
    else if |e.queue| + 1 >= MAX_EXPORT_BATCH then ChainSend(e.(queue := e.queue + [f]))
    else e.(queue := e.queue + [f], timer := true)
  }

  /** A task runs once the one before it has settled, well or badly. */
  predicate CanStart(e: ExportState, i: nat)
  {
    i < |e.chain| && e.chain[i] == Waiting && (i == 0 || e.chain[i - 1] == Done)
  }

  function StartExport(c: Config, e: ExportState, i: nat): ExportState
    requires CanStart(e, i)
  {
    if e.queue == [] || !Exporting(c)
    then e.(timer := false, queue := [], chain := e.chain[i := Done])
    else ExportState([], false, 0, e.chain[i := Sending(e.queue)])
  }

  function FinishExport(e: ExportState, i: nat): ExportState
    requires i < |e.chain|
  {
    e.(chain := e.chain[i := Done])
  }

  function ExportTimerFired(e: ExportState): ExportState { ChainSend(e.(timer := false)) }

  // ---------- the class ----------

  class Notifier {
    const config: Config
    var lastNotifiedAt: OrderedMap<string, int>
    var sentTimestamps: seq<int>
    var queue: seq<Queued>
    var omitted: nat
    var digestTimer: bool
    var sending: bool
    var inFlight: nat
    var exportQueue: seq<Notifiable>
    var exportTimer: bool
    var exportInFlight: seq<Task>
    var exportDropped: nat

    /** Throttle and ceiling history may be carried over from the notifier being replaced. */
    constructor (config: Config, lastNotifiedAt: OrderedMap<string, int>, sentTimestamps: seq<int>)
      ensures this.config == config
      ensures Digest() == CarriedDigest(lastNotifiedAt, sentTimestamps)
      ensures Export() == IDLE_EXPORT
    {
      this.config, this.lastNotifiedAt, this.sentTimestamps := config, lastNotifiedAt, sentTimestamps;
      queue, omitted, digestTimer, sending, inFlight := [], 0, false, false, 0;
      exportQueue, exportTimer, exportInFlight, exportDropped := [], false, [], 0;
    }

    function Digest(): DigestState
      reads this
    {
      DigestState(lastNotifiedAt, sentTimestamps, queue, omitted, digestTimer, sending, inFlight)
    }

    function Export(): ExportState
      reads this
    {
      ExportState(exportQueue, exportTimer, exportDropped, exportInFlight)
    }

    method HourlyCountAt(now: int) returns (count: nat)
      modifies this`sentTimestamps
      ensures sentTimestamps == Prune(old(sentTimestamps), now - HOUR)
      ensures count == |sentTimestamps|
    {
      var cutoff := now - HOUR;
      while |sentTimestamps| > 0 && sentTimestamps[0] < cutoff
        invariant Prune(sentTimestamps, cutoff) == Prune(old(sentTimestamps), cutoff)
        decreases |sentTimestamps|
      {
        sentTimestamps := sentTimestamps[1..];
      }
      count := |sentTimestamps|;
    }

    method Consider(s: Sighting, now: int) returns (verdict: Verdict)
      modifies this
      ensures var item := Queued(ToNotifiable(s, config.includeEvidence, config.sensorId), s.finding.dedupKey);
              verdict == VerdictOn(config, old(Digest()), item, now) &&
              Digest() == AfterConsider(config, old(Digest()), item, now)
      ensures Export() ==
              Enqueue(config, old(Export()), ToNotifiable(s, config.syslogIncludeEvidence, config.sensorId))
    {
      EnqueueExport(ToNotifiable(s, config.syslogIncludeEvidence, config.sensorId));
      var item := Queued(ToNotifiable(s, config.includeEvidence, config.sensorId), s.finding.dedupKey);
      verdict := Gate(item, now);
    }

    /** The gates, in order, for a finding already put in notifiable form. */
    method Gate(item: Queued, now: int) returns (verdict: Verdict)
      modifies this
      ensures verdict == VerdictOn(config, old(Digest()), item, now)
      ensures Digest() == AfterConsider(config, old(Digest()), item, now)
      ensures Export() == old(Export())
    {
      if !Active(config) { return Disabled; }
      if !MeetsThreshold(item.finding.severity, config.minSeverity) { return BelowThreshold; }
      if InThrottle(config, Digest(), item.dedupKey, now) { return Throttled; }
      var count := HourlyCountAt(now);
      if count >= config.maxPerHour { return RateLimited; }
      lastNotifiedAt := lastNotifiedAt.SetBounded(MAX_THROTTLE_KEYS, item.dedupKey, now);
      if |queue| >= MAX_QUEUED {
        omitted := omitted + 1;
      } else {
        queue := queue + [item];
      }
      ScheduleDigest();
      return QueuedUp;
    }

    method ScheduleDigest()
      modifies this`digestTimer
      ensures digestTimer
    {
      if digestTimer { return; }
      digestTimer := true;
    }

    /** The part of a dispatch before its first wait; None when there is nothing to start. */
    method Dispatch(now: int) returns (message: Option<Notification>)
      modifies this
      ensures Digest() == StartDispatch(old(Digest()), now) && Export() == old(Export())
      ensures message == if CanDispatch(old(Digest())) then Some(Digests.Digest(old(queue), old(omitted))) else None
    {
      if sending || |queue| == 0 { return None; }
      sending := true;
      inFlight := inFlight + 1;
      var batch, omittedCount := queue, omitted;
      queue, omitted := [], 0;
      var n := BuildNotification(batch, omittedCount);
      sentTimestamps := sentTimestamps + [now];
      return Some(n);
    }

    /** The part of a dispatch after its deliveries have settled. */
    method SettleDispatch()
      modifies this`sending, this`digestTimer
      ensures Digest() == FinishDispatch(old(Digest()))
    {
      sending := false;
      if |queue| > 0 { ScheduleDigest(); }
    }

    method OnDigestTimer(now: int) returns (message: Option<Notification>)
      modifies this
      ensures Digest() == DigestTimerFired(old(Digest()), now) && Export() == old(Export())
    {
      digestTimer := false;
      message := Dispatch(now);
    }

    method EnqueueExport(f: Notifiable)
      modifies this`exportQueue, this`exportTimer, this`exportInFlight, this`exportDropped
      ensures Export() == Enqueue(config, old(Export()), f)
    {
      if !Exporting(config) { return; }
      if |exportQueue| >= MAX_EXPORT_QUEUE {
        exportDropped := exportDropped + 1;
        return;
      }
      exportQueue := exportQueue + [f];
      if |exportQueue| >= MAX_EXPORT_BATCH {
        FlushExports();
        return;
      }
      exportTimer := true;
    }

    method FlushExports()
      modifies this`exportInFlight
      ensures Export() == ChainSend(old(Export()))
    {
      exportInFlight := exportInFlight + [Waiting];
    }

    /** The part of an export send before its first wait. */
    method SendExportBatch(i: nat) returns (message: Option<Notification>)
      requires CanStart(Export(), i)
      modifies this`exportQueue, this`exportTimer, this`exportInFlight, this`exportDropped
      ensures Export() == StartExport(config, old(Export()), i)
      ensures message == if exportInFlight[i] == Done then None else Some(ExportMessage(old(exportQueue)))
    {
      exportTimer := false;
      var batch := exportQueue;
      exportQueue := [];
      if |batch| == 0 || !Exporting(config) {
        exportInFlight := exportInFlight[i := Done];
        return None;
      }
      if exportDropped > 0 { exportDropped := 0; }
      exportInFlight := exportInFlight[i := Sending(batch)];
      var n := BuildExport(batch);
      return Some(n);
    }

    method SettleExport(i: nat)
      requires i < |exportInFlight|
      modifies this`exportInFlight
      ensures Export() == FinishExport(old(Export()), i)
    {
      exportInFlight := exportInFlight[i := Done];
    }

    method OnExportTimer()
      modifies this`exportTimer, this`exportInFlight
      ensures Export() == ExportTimerFired(old(Export()))
    {
      exportTimer := false;
      FlushExports();
    }
  }
}
