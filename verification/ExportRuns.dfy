/**
 Whole runs of the export queue, and of `flush`: the stream is complete whatever the gates
 decide, sends never overlap, and a flush resolves only when all that waited has left.
 */
module ExportRuns {
  import opened Options
  import opened OrderedMaps
  import opened Digests
  import opened Notifiers
  import opened NotifierRuns

  // ---------- the stream ----------

  datatype ExportEvent = TimerFires | Chain | Start(task: nat) | Finish(task: nat)

  /** The export side with what has become of every offer made to it. */
  datatype Stream = Stream(
    e: ExportState,
    offers: seq<(Notifiable, bool)>,  // every finding offered, and whether there was room for it
    messages: seq<Notification>,      // handed to the channels, in order
    landed: nat,                      // how many findings are in messages whose send has settled
    reported: nat                     // drops written to the log when the queue recovered
  )

  const NEW_STREAM: Stream := Stream(IDLE_EXPORT, [], [], 0, 0)

  /** The findings of the messages, one message after another. */
  function Sent(messages: seq<Notification>): seq<Notifiable>
  {
    if messages == [] then [] else Sent(messages[..|messages| - 1]) + messages[|messages| - 1].findings
  }

  function Kept(offers: seq<(Notifiable, bool)>): seq<Notifiable>
  {
    if offers == [] then [] else
    var last := offers[|offers| - 1];
    Kept(offers[..|offers| - 1]) + if last.1 then [last.0] else []
  }

  function Lost(offers: seq<(Notifiable, bool)>): nat
  {
    if offers == [] then 0 else Lost(offers[..|offers| - 1]) + if offers[|offers| - 1].1 then 0 else 1
  }

  function Offered(c: Config, s: Stream, f: Notifiable): Stream
  {
    if !Exporting(c) then s else
    s.(e := Enqueue(c, s.e, f), offers := s.offers + [(f, |s.e.queue| < 10_000)])
  }

  /** Where an offer goes: nowhere if no one exports; into the count of drops at ten thousand waiting; else to the
      end of the queue, with a send hung on the chain at two hundred and the timer set below that. */
  lemma OfferGoes(c: Config, e: ExportState, f: Notifiable)
    ensures var after, n := Enqueue(c, e, f), |e.queue|;
            if forall k :: 0 <= k < |c.channels| ==> !(c.channels[k].deliversEveryFinding && c.channels[k].configured)
            then after == e
            else if n >= 10_000 then after == e.(dropped := e.dropped + 1)
            else if n >= 199 then after == e.(queue := e.queue + [f], chain := e.chain + [Waiting])
            else after == e.(queue := e.queue + [f], timer := true)
  {
    if ch :| ch in c.channels && ch.deliversEveryFinding && ch.configured {
      var k :| 0 <= k < |c.channels| && c.channels[k] == ch;
    }
  }

  function Handed(s: Stream): nat { |Sent(s.messages)| }

  function StepStream(c: Config, s: Stream, x: ExportEvent): Stream
  {
    match x
    case TimerFires => if s.e.timer then s.(e := ExportTimerFired(s.e)) else s
    case Chain => s.(e := ChainSend(s.e))
    case Start(i) =>
      if !CanStart(s.e, i) then s
      else if s.e.queue == [] || !Exporting(c) then s.(e := StartExport(c, s.e, i))
      else s.(e := StartExport(c, s.e, i), messages := s.messages + [ExportMessage(s.e.queue)],
              reported := s.reported + s.e.dropped)
    case Finish(i) =>
      if i < |s.e.chain| && s.e.chain[i].Sending?
      then s.(e := FinishExport(s.e, i), landed := Handed(s))
      else s
  }

  /** A task that has begun has only settled tasks before it. */
  ghost predicate InTurn(chain: seq<Task>)
  {
    forall i, j :: 0 <= i < j < |chain| && chain[j] != Waiting ==> chain[i] == Done
  }

  ghost predicate NoneSending(chain: seq<Task>)
  {
    forall i :: 0 <= i < |chain| ==> !chain[i].Sending?
  }

  ghost predicate StreamOk(c: Config, s: Stream)
  {
    Sent(s.messages) + s.e.queue == Kept(s.offers) &&
    s.e.dropped + s.reported == Lost(s.offers) &&
    |s.e.queue| <= MAX_EXPORT_QUEUE &&
    InTurn(s.e.chain) &&
    (!Exporting(c) ==> s.offers == []) &&
    (forall k :: 0 <= k < |s.messages| ==> Complete(s.messages[k])) &&
    s.landed <= Handed(s) && (NoneSending(s.e.chain) ==> s.landed == Handed(s))
  }

  lemma SentSnoc(messages: seq<Notification>, batch: seq<Notifiable>)
    ensures Sent(messages + [ExportMessage(batch)]) == Sent(messages) + batch
  {
    ExportMessageSays(batch);
    assert (messages + [ExportMessage(batch)])[..|messages|] == messages;
  }

  /** A message leaves nothing out, counts what it holds, and carries the severity of its most urgent finding. */
  ghost predicate Complete(m: Notification)
  {
    m.omittedCount == 0 && m.findings != [] && CountsAre(m.countsBySeverity, m.findings) &&
    (exists k :: 0 <= k < |m.findings| && m.findings[k].severity == m.severity) &&
    forall k :: 0 <= k < |m.findings| ==> Rank(m.severity) <= Rank(m.findings[k].severity)
  }

  lemma MessageComplete(batch: seq<Notifiable>)
    requires batch != []
    ensures Complete(ExportMessage(batch))
  {
    ExportMessageSays(batch);
    var i := FirstCountedMostUrgent(batch);
  }

  lemma OffersSnoc(offers: seq<(Notifiable, bool)>, f: Notifiable, room: bool)
    ensures Kept(offers + [(f, room)]) == Kept(offers) + if room then [f] else []
    ensures Lost(offers + [(f, room)]) == Lost(offers) + if room then 0 else 1
  {
    assert (offers + [(f, room)])[..|offers|] == offers;
  }

  lemma OfferKeeps(c: Config, s: Stream, f: Notifiable)
    requires StreamOk(c, s)
    ensures StreamOk(c, Offered(c, s, f))
  {
    if Exporting(c) {
      var room := |s.e.queue| < MAX_EXPORT_QUEUE;
      OffersSnoc(s.offers, f, room);
      EnqueueIs(c, s.e, f);
      ChainAppend(s.e.chain);
      if room {
        assert Sent(s.messages) + (s.e.queue + [f]) == Kept(s.offers) + [f];
      }
    }
  }

  lemma EnqueueIs(c: Config, e: ExportState, f: Notifiable)
    requires Exporting(c)
    ensures var room := |e.queue| < MAX_EXPORT_QUEUE;
            var next := Enqueue(c, e, f);
            next.queue == (if room then e.queue + [f] else e.queue) &&
            next.dropped == (if room then e.dropped else e.dropped + 1) &&
            (next.chain == e.chain || next.chain == e.chain + [Waiting])
  {
  }

  lemma ChainAppend(chain: seq<Task>)
    requires InTurn(chain)
    ensures InTurn(chain + [Waiting])
    ensures NoneSending(chain + [Waiting]) <==> NoneSending(chain)
  {
    if NoneSending(chain + [Waiting]) {
      forall i | 0 <= i < |chain| ensures !chain[i].Sending? { assert (chain + [Waiting])[i] == chain[i]; }
    }
  }

  /** When a task may start, every earlier one has settled and every later one waits. */
  lemma StartInTurn(chain: seq<Task>, i: nat, task: Task)
    requires InTurn(chain) && i < |chain| && chain[i] == Waiting && (i == 0 || chain[i - 1] == Done)
    requires task != Waiting
    ensures NoneSending(chain) && InTurn(chain[i := task])
    ensures task == Done ==> NoneSending(chain[i := task])
  {
    forall k | 0 <= k < i ensures chain[k] == Done {
      assert k < i - 1 ==> chain[k] == Done;
    }
    forall k | i < k < |chain| ensures chain[k] == Waiting {
      assert chain[i] == Waiting;
    }
  }

  lemma FinishInTurn(chain: seq<Task>, i: nat)
    requires InTurn(chain) && i < |chain| && chain[i].Sending?
    ensures InTurn(chain[i := Done]) && NoneSending(chain[i := Done])
  {
    forall k | 0 <= k < |chain| && k != i ensures !chain[k].Sending? {
      if k < i {
        assert chain[k] == Done;
      }
    }
  }

  lemma StartsNothing(c: Config, s: Stream, i: nat)
    requires StreamOk(c, s) && CanStart(s.e, i) && (s.e.queue == [] || !Exporting(c))
    ensures StreamOk(c, StepStream(c, s, Start(i)))
  {
    StartInTurn(s.e.chain, i, Done);
    if !Exporting(c) { EmptyWhenIdle(c, s); }
  }

  lemma StartsSending(c: Config, s: Stream, i: nat)
    requires StreamOk(c, s) && CanStart(s.e, i) && s.e.queue != [] && Exporting(c)
    ensures StreamOk(c, StepStream(c, s, Start(i)))
  {
    StartInTurn(s.e.chain, i, Sending(s.e.queue));
    MessageComplete(s.e.queue);
    SentSnoc(s.messages, s.e.queue);
    assert s.e.chain[i := Sending(s.e.queue)][i].Sending?;
  }

  lemma StartKeeps(c: Config, s: Stream, i: nat)
    requires StreamOk(c, s) && CanStart(s.e, i)
    ensures StreamOk(c, StepStream(c, s, Start(i)))
  {
    if s.e.queue == [] || !Exporting(c) { StartsNothing(c, s, i); } else { StartsSending(c, s, i); }
  }

  lemma EmptyWhenIdle(c: Config, s: Stream)
    requires StreamOk(c, s) && !Exporting(c)
    ensures s.e.queue == []
  {
    assert Kept(s.offers) == [];
  }

  lemma StepKeepsStream(c: Config, s: Stream, x: ExportEvent)
    requires StreamOk(c, s)
    ensures StreamOk(c, StepStream(c, s, x))
  {
    match x {
      case Start(i) => if CanStart(s.e, i) { StartKeeps(c, s, i); }
      case Finish(i) => if i < |s.e.chain| && s.e.chain[i].Sending? { FinishInTurn(s.e.chain, i); }
      case _ => ChainAppend(s.e.chain);
    }
  }

  ghost predicate NeverOverlap(chain: seq<Task>)
  {
    forall i, j :: 0 <= i < j < |chain| && chain[j].Sending? ==> !chain[i].Sending?
  }

  /** A finding offered while exporting is in exactly one place: a message handed over, the queue,
      or the count of drops. The findings of the messages so far, then the queue, are the offers kept, in order;
      and no two sends are ever under way together. */
  lemma StreamIsComplete(c: Config, s: Stream)
    requires StreamOk(c, s)
    ensures Sent(s.messages) + s.e.queue == Kept(s.offers)
    ensures Handed(s) + |s.e.queue| + s.reported + s.e.dropped == |s.offers|
    ensures NeverOverlap(s.e.chain)
  {
    KeptOrLost(s.offers);
    assert |Sent(s.messages) + s.e.queue| == |Kept(s.offers)|;
    forall i, j | 0 <= i < j < |s.e.chain| && s.e.chain[j].Sending? ensures !s.e.chain[i].Sending? {
      assert s.e.chain[i] == Done;
    }
  }

  lemma {:induction false} KeptOrLost(offers: seq<(Notifiable, bool)>)
    ensures |Kept(offers)| + Lost(offers) == |offers|
  {
    if offers != [] { KeptOrLost(offers[..|offers| - 1]); }
  }

  // ---------- the whole notifier ----------

  /** The digest side, with how many findings have joined its queue and how many have left it. */
  datatype Desk = Desk(d: DigestState, joined: nat, taken: nat)

  function StepDesk(c: Config, k: Desk, e: Event, t: int): Desk
  {
    var next := After(c, k.d, e, t);
    if Starts(k.d, e) then Desk(next, k.joined, k.joined)
    else Desk(next, k.joined + |next.queue| - |k.d.queue|, k.taken)
  }

  ghost predicate DeskOk(k: Desk) { k.joined == k.taken + |k.d.queue| }

  lemma StepKeepsDesk(c: Config, k: Desk, e: Event, t: int)
    requires DeskOk(k)
    ensures DeskOk(StepDesk(c, k, e, t))
    ensures StepDesk(c, k, e, t).taken >= k.taken && StepDesk(c, k, e, t).joined >= k.joined
    ensures StepDesk(c, k, e, t).d.started == k.d.started + if Starts(k.d, e) then 1 else 0
    ensures Starts(k.d, e) ==> StepDesk(c, k, e, t).taken == k.joined
  {
  }

  /** Where a call of `flush` is waiting. A dispatch that found nothing to do is `None`. */
  datatype Flush =
    | NotCalled
    | FirstExport(task: nat)
    | SecondExport(task: nat)
    | InFlight(dispatch: nat)
    | OwnDispatch(own: Option<nat>)
    | InFlightAgain(dispatch: nat)
    | OwnDispatchAgain(own: Option<nat>)
    | Resolved

  /** A notifier with one call of `flush` followed through; the marks are taken when it is called. */
  datatype World = World(s: Stream, k: Desk, flush: Flush, exportMark: nat, digestMark: nat)

  /** A notifier just built, with throttle and ceiling history if it replaces another. */
  function NewWorld(carried: DigestState): World
  {
    World(NEW_STREAM, Desk(CarriedDigest(carried.lastNotifiedAt, carried.sent), 0, 0), NotCalled, 0, 0)
  }

  datatype WorldEvent =
    | Sight(sighting: Sighting)
    | OnDigest(event: Event)
    | OnExport(step: ExportEvent)
    | CallFlush
    | ResumeFlush

  predicate DispatchSettled(d: DigestState, n: nat) { !(d.sending && d.started == n) }

  predicate OwnSettled(d: DigestState, own: Option<nat>) { own.None? || DispatchSettled(d, own.value) }

  /** The dispatch that a call of `dispatch()` starts, if any. */
  function DispatchStarted(d: DigestState): Option<nat> { if CanDispatch(d) then Some(d.started + 1) else None }

  function Resume(c: Config, w: World, t: int): World
  {
    match w.flush
    case FirstExport(i) =>
      if i < |w.s.e.chain| && w.s.e.chain[i] == Done
      then w.(s := StepStream(c, w.s, Chain), flush := SecondExport(|w.s.e.chain|)) else w
    case SecondExport(i) =>
      if i < |w.s.e.chain| && w.s.e.chain[i] == Done then w.(flush := InFlight(w.k.d.started)) else w
    case InFlight(n) =>
      if DispatchSettled(w.k.d, n)
      then w.(k := StepDesk(c, w.k, Dispatch, t), flush := OwnDispatch(DispatchStarted(w.k.d))) else w
    case OwnDispatch(own) =>
      if !OwnSettled(w.k.d, own) then w
      else if w.k.d.queue == [] then w.(flush := Resolved)
      else w.(flush := InFlightAgain(w.k.d.started))
    case InFlightAgain(n) =>
      if DispatchSettled(w.k.d, n)
      then w.(k := StepDesk(c, w.k, Dispatch, t), flush := OwnDispatchAgain(DispatchStarted(w.k.d))) else w
    case OwnDispatchAgain(own) => if OwnSettled(w.k.d, own) then w.(flush := Resolved) else w
    case _ => w
  }

  function ItemOf(c: Config, x: Sighting): Queued
  {
    Queued(ToNotifiable(x, c.includeEvidence, c.sensorId), x.finding.dedupKey)
  }

  function StepWorld(c: Config, w: World, x: WorldEvent, t: int): World
  {
    match x
    case Sight(g) =>
      w.(s := Offered(c, w.s, ToNotifiable(g, c.syslogIncludeEvidence, c.sensorId)),
         k := StepDesk(c, w.k, Consider(ItemOf(c, g)), t))
    case OnDigest(e) => if IsInternal(e) then w.(k := StepDesk(c, w.k, e, t)) else w
    case OnExport(e) => w.(s := StepStream(c, w.s, e))
    case CallFlush =>
      if w.flush != NotCalled then w
      else World(StepStream(c, w.s, Chain), StepDesk(c, w.k, ClearTimer, t), FirstExport(|w.s.e.chain|),
                 |Kept(w.s.offers)|, w.k.joined)
    case ResumeFlush => Resume(c, w, t)
  }

  datatype TimedWorld = Tick(time: int, event: WorldEvent)

  function RunWorld(c: Config, carried: DigestState, events: seq<TimedWorld>): World
  {
    if events == [] then NewWorld(carried)
    else
      var last := events[|events| - 1];
      StepWorld(c, RunWorld(c, carried, events[..|events| - 1]), last.event, last.time)
  }

  // ---------- flush ----------

  /** What an awaited export task promises: begun, it has taken everything marked; settled,
      all of that has been sent. */
  ghost predicate TaskPromise(s: Stream, i: nat, mark: nat)
  {
    i < |s.e.chain| &&
    (s.e.chain[i] != Waiting ==> Handed(s) >= mark) && (s.e.chain[i] == Done ==> s.landed >= mark)
  }

  ghost predicate FlushOk(w: World)
  {
    match w.flush
    case NotCalled => true
    case FirstExport(i) =>
      w.exportMark <= |Kept(w.s.offers)| && w.digestMark <= w.k.joined && TaskPromise(w.s, i, w.exportMark)
    case SecondExport(i) => w.digestMark <= w.k.joined && w.s.landed >= w.exportMark
    case InFlight(n) =>
      w.digestMark <= w.k.joined && w.s.landed >= w.exportMark && n <= w.k.d.started &&
      (n < w.k.d.started ==> w.k.taken >= w.digestMark)
    case _ => w.s.landed >= w.exportMark && w.k.taken >= w.digestMark
  }

  ghost predicate WorldOk(c: Config, w: World) { StreamOk(c, w.s) && DeskOk(w.k) && FlushOk(w) }

  lemma LandedGrows(c: Config, s: Stream, x: ExportEvent)
    requires StreamOk(c, s)
    ensures var next := StepStream(c, s, x);
            next.landed >= s.landed && Handed(next) >= Handed(s) && |next.e.chain| >= |s.e.chain| &&
            next.offers == s.offers
  {
    SentSnoc(s.messages, s.e.queue);
  }

  lemma ChainGrows(c: Config, e: ExportState, f: Notifiable)
    ensures e.chain <= Enqueue(c, e, f).chain
  {
  }

  lemma KeptGrows(c: Config, s: Stream, f: Notifiable)
    ensures |Kept(Offered(c, s, f).offers)| >= |Kept(s.offers)|
    ensures Offered(c, s, f).messages == s.messages && Offered(c, s, f).landed == s.landed
    ensures |Offered(c, s, f).e.chain| >= |s.e.chain|
    ensures forall i :: 0 <= i < |s.e.chain| ==> Offered(c, s, f).e.chain[i] == s.e.chain[i]
  {
    ChainGrows(c, s.e, f);
    if Exporting(c) { OffersSnoc(s.offers, f, |s.e.queue| < MAX_EXPORT_QUEUE); }
  }

  /** Starting any task takes the whole queue; settling one lands all that was handed over. */
  lemma PromiseKept(c: Config, s: Stream, x: ExportEvent, i: nat, mark: nat)
    requires StreamOk(c, s) && TaskPromise(s, i, mark) && mark <= |Kept(s.offers)|
    ensures TaskPromise(StepStream(c, s, x), i, mark)
  {
    LandedGrows(c, s, x);
    StepKeepsStream(c, s, x);
    match x {
      case Start(j) =>
        if CanStart(s.e, j) { StartTakesAll(c, s, j); }
      case _ =>
    }
  }

  lemma StartTakesAll(c: Config, s: Stream, j: nat)
    requires StreamOk(c, s) && CanStart(s.e, j)
    ensures var next := StepStream(c, s, Start(j));
            Handed(next) == |Kept(s.offers)| && (next.e.chain[j] == Done ==> next.landed == Handed(next))
  {
    StartKeeps(c, s, j);
    assert |Sent(s.messages) + s.e.queue| == |Kept(s.offers)|;
    if s.e.queue == [] || !Exporting(c) {
      StartInTurn(s.e.chain, j, Done);
      if !Exporting(c) { EmptyWhenIdle(c, s); }
    } else {
      SentSnoc(s.messages, s.e.queue);
    }
  }

  lemma SightKeeps(c: Config, w: World, g: Sighting, t: int)
    requires WorldOk(c, w)
    ensures WorldOk(c, StepWorld(c, w, Sight(g), t))
  {
    var f := ToNotifiable(g, c.syslogIncludeEvidence, c.sensorId);
    OfferKeeps(c, w.s, f);
    KeptGrows(c, w.s, f);
    StepKeepsDesk(c, w.k, Consider(ItemOf(c, g)), t);
  }

  lemma DigestKeeps(c: Config, w: World, e: Event, t: int)
    requires WorldOk(c, w) && IsInternal(e)
    ensures WorldOk(c, w.(k := StepDesk(c, w.k, e, t)))
  {
    StepKeepsDesk(c, w.k, e, t);
  }

  lemma ExportKeeps(c: Config, w: World, x: ExportEvent)
    requires WorldOk(c, w)
    ensures WorldOk(c, w.(s := StepStream(c, w.s, x)))
  {
    StepKeepsStream(c, w.s, x);
    LandedGrows(c, w.s, x);
    if w.flush.FirstExport? { PromiseKept(c, w.s, x, w.flush.task, w.exportMark); }
  }

  lemma CallKeeps(c: Config, w: World, t: int)
    requires WorldOk(c, w)
    ensures WorldOk(c, StepWorld(c, w, CallFlush, t))
  {
    if w.flush == NotCalled {
      StepKeepsStream(c, w.s, Chain);
      StepKeepsDesk(c, w.k, ClearTimer, t);
    }
  }

  /** An awaited export that has settled has sent everything marked. */
  lemma ExportAwaited(c: Config, w: World, t: int)
    requires WorldOk(c, w) && (w.flush.FirstExport? || w.flush.SecondExport?)
    ensures WorldOk(c, Resume(c, w, t))
  {
    StepKeepsStream(c, w.s, Chain);
    LandedGrows(c, w.s, Chain);
  }

  /** Once the dispatch found in flight has settled, every marked finding has been taken: by a
      later dispatch, or by the one that starts now. */
  lemma DispatchAwaited(c: Config, w: World, t: int)
    requires WorldOk(c, w) && (w.flush.InFlight? || w.flush.InFlightAgain?)
    ensures WorldOk(c, Resume(c, w, t))
  {
    StepKeepsDesk(c, w.k, Dispatch, t);
  }

  lemma StepKeepsWorld(c: Config, w: World, x: WorldEvent, t: int)
    requires WorldOk(c, w)
    ensures WorldOk(c, StepWorld(c, w, x, t))
  {
    match x {
      case Sight(g) => SightKeeps(c, w, g, t);
      case OnDigest(e) => if IsInternal(e) { DigestKeeps(c, w, e, t); }
      case OnExport(e) => ExportKeeps(c, w, e);
      case CallFlush => CallKeeps(c, w, t);
      case ResumeFlush =>
        if w.flush.FirstExport? || w.flush.SecondExport? { ExportAwaited(c, w, t); }
        else if w.flush.InFlight? || w.flush.InFlightAgain? { DispatchAwaited(c, w, t); }
    }
  }

  lemma {:induction false} RunsKeepWorld(c: Config, carried: DigestState, events: seq<TimedWorld>)
    ensures WorldOk(c, RunWorld(c, carried, events))
  {
    if events != [] {
      var init, last := events[..|events| - 1], events[|events| - 1];
      RunsKeepWorld(c, carried, init);
      StepKeepsWorld(c, RunWorld(c, carried, init), last.event, last.time);
    }
  }

  /** In every run: nothing offered for export is lost unseen, repeated or reordered, and no two
      sends are under way together. */
  lemma ExportStream(c: Config, carried: DigestState, events: seq<TimedWorld>)
    ensures var s := RunWorld(c, carried, events).s;
            Sent(s.messages) + s.e.queue == Kept(s.offers) &&
            Handed(s) + |s.e.queue| + s.reported + s.e.dropped == |s.offers| &&
            NeverOverlap(s.e.chain) && forall k :: 0 <= k < |s.messages| ==> Complete(s.messages[k])
  {
    RunsKeepWorld(c, carried, events);
    StreamIsComplete(c, RunWorld(c, carried, events).s);
  }

  /** When `flush` resolves, every export kept before it was called has been sent and settled, and
      every finding queued for the digest before then has been handed over. If nothing has joined
      the queue since, the queue is empty. */
  lemma FlushHandsOver(c: Config, carried: DigestState, events: seq<TimedWorld>)
    requires RunWorld(c, carried, events).flush == Resolved
    ensures var w := RunWorld(c, carried, events);
            w.exportMark <= w.s.landed <= |Sent(w.s.messages)| && |Kept(w.s.offers)| >= w.exportMark &&
            Sent(w.s.messages)[..w.exportMark] == Kept(w.s.offers)[..w.exportMark] &&
            w.k.taken >= w.digestMark && (w.k.joined <= w.digestMark ==> w.k.d.queue == [])
  {
    RunsKeepWorld(c, carried, events);
    var s := RunWorld(c, carried, events).s;
    assert Sent(s.messages) <= Sent(s.messages) + s.e.queue == Kept(s.offers);
  }

  lemma {:induction false} KeptWereOffered(offers: seq<(Notifiable, bool)>, f: Notifiable)
    requires f in Kept(offers)
    ensures (f, true) in offers
  {
    var init, last := offers[..|offers| - 1], offers[|offers| - 1];
    if last.1 && f == last.0 {
      assert last == (f, true);
    } else {
      KeptWereOffered(init, f);
    }
  }

  ghost predicate EvidenceOk(c: Config, w: World)
  {
    (forall o :: o in w.s.offers ==> (o.0.evidence.Some? <==> c.syslogIncludeEvidence)) &&
    forall q :: q in w.k.d.queue ==> (q.finding.evidence.Some? <==> c.includeEvidence)
  }

  lemma StepEvidence(c: Config, w: World, x: WorldEvent, t: int)
    requires EvidenceOk(c, w)
    ensures EvidenceOk(c, StepWorld(c, w, x, t))
  {
  }

  lemma {:induction false} RunsEvidence(c: Config, carried: DigestState, events: seq<TimedWorld>)
    ensures EvidenceOk(c, RunWorld(c, carried, events))
  {
    if events != [] {
      var init, last := events[..|events| - 1], events[|events| - 1];
      RunsEvidence(c, carried, init);
      StepEvidence(c, RunWorld(c, carried, init), last.event, last.time);
    }
  }

  /** Evidence leaves by the export channels if and only if it may leave there, and waits for a digest if and only
      if it may leave by one: neither setting stands in for the other. */
  lemma EvidenceAsAllowed(c: Config, carried: DigestState, events: seq<TimedWorld>)
    ensures var w := RunWorld(c, carried, events);
            (forall f :: f in Sent(w.s.messages) ==> (f.evidence.Some? <==> c.syslogIncludeEvidence)) &&
            forall q :: q in w.k.d.queue ==> (q.finding.evidence.Some? <==> c.includeEvidence)
  {
    RunsEvidence(c, carried, events);
    RunsKeepWorld(c, carried, events);
    var s := RunWorld(c, carried, events).s;
    forall f | f in Sent(s.messages) ensures f.evidence.Some? <==> c.syslogIncludeEvidence {
      assert f in Sent(s.messages) + s.e.queue;
      KeptWereOffered(s.offers, f);
    }
  }

  /** Settings that agree on what the export channels see. */
  predicate SameExports(a: Config, b: Config)
  {
    a.channels == b.channels && a.syslogIncludeEvidence == b.syslogIncludeEvidence && a.sensorId == b.sensorId
  }

  predicate PastExports(f: Flush) { !f.NotCalled? && !f.FirstExport? }

  predicate SameStream(v: World, w: World)
  {
    v.s == w.s && (v.flush == w.flush || (PastExports(v.flush) && PastExports(w.flush)))
  }

  lemma StepSameStream(a: Config, b: Config, v: World, w: World, x: WorldEvent, t: int)
    requires SameExports(a, b) && SameStream(v, w)
    ensures SameStream(StepWorld(a, v, x, t), StepWorld(b, w, x, t))
  {
    assert Exporting(a) == Exporting(b);
  }

  /** The enabled flag, the severity gate, the throttle and the hourly ceiling decide nothing here:
      whatever they are, the same events leave the export stream in the same state. */
  lemma {:induction false} ExportsIgnoreTheGates(a: Config, b: Config, carried: DigestState, events: seq<TimedWorld>)
    requires SameExports(a, b)
    ensures SameStream(RunWorld(a, carried, events), RunWorld(b, carried, events))
  {
    if events != [] {
      var init, last := events[..|events| - 1], events[|events| - 1];
      ExportsIgnoreTheGates(a, b, carried, init);
      StepSameStream(a, b, RunWorld(a, carried, init), RunWorld(b, carried, init), last.event, last.time);
    }
  }

  // ---------- nothing is stranded ----------

  /** Whatever waits has a timer set, a task queued, a send whose end will look again, or a
      flush that has yet to reach it. */
  ghost predicate Attended(w: World)
  {
    (w.s.e.queue != [] ==> w.s.e.timer || Waiting in w.s.e.chain) &&
    (w.k.d.queue != [] ==> w.k.d.timer || w.k.d.sending || w.k.taken < w.digestMark)
  }

  lemma WaitingStays(chain: seq<Task>, i: nat, task: Task)
    requires i < |chain| && chain[i] != Waiting && Waiting in chain
    ensures Waiting in chain[i := task]
  {
    var j :| 0 <= j < |chain| && chain[j] == Waiting;
    assert chain[i := task][j] == Waiting;
  }

  lemma WaitingAppended(chain: seq<Task>)
    ensures Waiting in chain + [Waiting]
  {
    assert (chain + [Waiting])[|chain|] == Waiting;
  }

  lemma StreamAttended(c: Config, s: Stream, x: ExportEvent)
    requires s.e.queue != [] ==> s.e.timer || Waiting in s.e.chain
    ensures var next := StepStream(c, s, x).e;
            next.queue != [] ==> next.timer || Waiting in next.chain
  {
    WaitingAppended(s.e.chain);
    match x {
      case Finish(i) =>
        if i < |s.e.chain| && s.e.chain[i].Sending? && Waiting in s.e.chain { WaitingStays(s.e.chain, i, Done); }
      case _ =>
    }
  }

  lemma OfferAttended(c: Config, s: Stream, f: Notifiable)
    requires s.e.queue != [] ==> s.e.timer || Waiting in s.e.chain
    ensures var next := Offered(c, s, f).e;
            next.queue != [] ==> next.timer || Waiting in next.chain
  {
    WaitingAppended(s.e.chain);
  }

  lemma DeskAttended(c: Config, k: Desk, e: Event, t: int, mark: nat)
    requires e != ClearTimer && (k.d.queue != [] ==> k.d.timer || k.d.sending || k.taken < mark)
    ensures var next := StepDesk(c, k, e, t);
            next.d.queue != [] ==> next.d.timer || next.d.sending || next.taken < mark
  {
  }

  predicate NoOtherFlush(x: WorldEvent) { x != OnDigest(ClearTimer) }

  lemma SightAttended(c: Config, w: World, g: Sighting, t: int)
    requires WorldOk(c, w) && Attended(w)
    ensures Attended(StepWorld(c, w, Sight(g), t))
  {
    OfferAttended(c, w.s, ToNotifiable(g, c.syslogIncludeEvidence, c.sensorId));
    DeskAttended(c, w.k, Consider(ItemOf(c, g)), t, w.digestMark);
  }

  lemma ResumeAttended(c: Config, w: World, t: int)
    requires WorldOk(c, w) && Attended(w)
    ensures Attended(StepWorld(c, w, ResumeFlush, t))
  {
    StreamAttended(c, w.s, Chain);
    DeskAttended(c, w.k, Dispatch, t, w.digestMark);
  }

  lemma StepAttended(c: Config, w: World, x: WorldEvent, t: int)
    requires WorldOk(c, w) && Attended(w) && NoOtherFlush(x)
    ensures Attended(StepWorld(c, w, x, t))
  {
    match x {
      case Sight(g) => SightAttended(c, w, g, t);
      case OnDigest(e) => DeskAttended(c, w.k, e, t, w.digestMark);
      case OnExport(e) => StreamAttended(c, w.s, e);
      case CallFlush => StreamAttended(c, w.s, Chain);
      case ResumeFlush => ResumeAttended(c, w, t);
    }
  }

  lemma {:induction false} NothingStranded(c: Config, carried: DigestState, events: seq<TimedWorld>)
    requires forall n :: 0 <= n < |events| ==> NoOtherFlush(events[n].event)
    ensures Attended(RunWorld(c, carried, events))
  {
    if events != [] {
      var init, last := events[..|events| - 1], events[|events| - 1];
      NothingStranded(c, carried, init);
      RunsKeepWorld(c, carried, init);
      StepAttended(c, RunWorld(c, carried, init), last.event, last.time);
    }
  }

  /** With one flush, whatever is still queued when it resolves has a timer set or a send under way. */
  lemma FlushLeavesNothingStranded(c: Config, carried: DigestState, events: seq<TimedWorld>)
    requires forall n :: 0 <= n < |events| ==> NoOtherFlush(events[n].event)
    requires RunWorld(c, carried, events).flush == Resolved
    ensures var w := RunWorld(c, carried, events);
            (w.k.d.queue != [] ==> w.k.d.timer || w.k.d.sending) &&
            (w.s.e.queue != [] ==> w.s.e.timer || Waiting in w.s.e.chain)
  {
    NothingStranded(c, carried, events);
    FlushHandsOver(c, carried, events);
  }
}
