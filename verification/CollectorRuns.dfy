/** Whole runs of the restart chain: any interleaving of saves, restarts and bind results. */
module CollectorRuns {
  import opened Options
  import opened Collectors

  datatype Event =
    | Save(settings: Settings)
    | QueueRestart
    | BeginRebind(task: nat)
    | Closed(task: nat)
    | Flushed(task: nat)
    | BindOk(task: nat)
    | BindError(task: nat)
    | Datagram(allowed: bool)
    | AllowlistChanged
    | SocketError

  /** What became of the bind since the last restart began: not attempted, succeeded, failed, or
      succeeded and then ended by an error on the socket. */
  datatype Bind = Untried | Listening | Failed | Errored

  /**
   The process with what an observer would note beside it: whether a save has yet to queue its
   restart, what became of the last bind, and how many datagrams the open socket has brought, in
   all and since the allowlist last changed, and how many of the latter were refused.
   */
  datatype Run =
    Run(s: State, unqueued: bool, bind: Bind, received: nat, receivedUnder: nat, refusedUnder: nat)

  predicate Idle(s: State) { forall p :: p in s.chain ==> p == Done }

  /** Chained behind the one before it; `serial` false is the variant without the chain. */
  predicate CanBegin(s: State, i: nat, serial: bool)
  {
    i < |s.chain| && s.chain[i] == Waiting && (!serial || i == 0 || s.chain[i - 1] == Done)
  }

  predicate CanStart(s: State, i: nat) { i < |s.chain| && (s.chain[i] == Flushing || s.chain[i] == Booting) }

  /** An event that is not possible in the state at hand changes nothing. */
  function Step(r: Run, e: Event, serial: bool): Run
  {
    match e
    case Save(settings) =>
      r.(s := r.s.(settings := settings), unqueued := r.unqueued || settings != r.s.settings)
    case QueueRestart => r.(s := r.s.(chain := r.s.chain + [Waiting]), unqueued := false)
    case BeginRebind(i) => if CanBegin(r.s, i, serial) then r.(s := BeginStop(r.s, i), bind := Untried) else r
    case Closed(i) => if i < |r.s.chain| && r.s.chain[i].Closing? then r.(s := FinishClose(r.s, i)) else r
    case Flushed(i) => if CanStart(r.s, i) then r.(s := BeginStart(r.s, i)) else r
    case BindOk(i) =>
      if i < |r.s.chain| && r.s.chain[i].Opening?
      then r.(s := BindSucceeds(r.s, i), bind := Listening, received := 0, receivedUnder := 0, refusedUnder := 0)
      else r
    case BindError(i) =>
      if i < |r.s.chain| && r.s.chain[i].Opening? then r.(s := BindFails(r.s, i), bind := Failed) else r
    case Datagram(allowed) =>
      if r.s.socket.None? then r
      else r.(s := r.s.(counters := Collectors.Received(r.s.counters, allowed)), received := r.received + 1,
              receivedUnder := r.receivedUnder + 1,
              refusedUnder := r.refusedUnder + if allowed then 0 else 1)
    case AllowlistChanged =>
      r.(s := r.s.(counters := RefusalsReset(r.s.counters)), receivedUnder := 0, refusedUnder := 0)
    case SocketError =>
      // Its `stop` is not on the chain, so it is taken only when no rebind is under way.
      if Idle(r.s) && r.s.socket.Some?
      then r.(s := r.s.(socket := None, boundTo := None, sink := false, open := r.s.open - {r.s.socket.value}),
              bind := Errored)
      else r
  }

  function After(settings: Settings, events: seq<Event>, serial: bool): Run
  {
    if events == [] then Run(AtBoot(settings), false, Untried, 0, 0, 0)
    else Step(After(settings, events[..|events| - 1], serial), events[|events| - 1], serial)
  }

  // ---------- the invariant ----------

  /** A rebind that has begun has only finished ones before it. */
  ghost predicate InTurn(chain: seq<Phase>)
  {
    forall i, j :: 0 <= i < j < |chain| && chain[j] != Waiting ==> chain[i] == Done
  }

  /** The rebind under way, if there is one. */
  ghost predicate IsActive(chain: seq<Phase>, i: nat)
  {
    i < |chain| && chain[i] != Waiting && chain[i] != Done
  }

  function SocketHandle(s: State): set<nat> { if s.socket.Some? then {s.socket.value} else {} }

  /** With no rebind under way the socket is the only handle open. */
  ghost predicate Resting(s: State)
  {
    s.open == SocketHandle(s) && (s.socket.Some? <==> s.boundTo.Some?) && (s.socket.Some? <==> s.sink)
  }

  /** What is open while a rebind is in the given phase. */
  ghost predicate InPhase(s: State, p: Phase)
  {
    s.socket == None &&
    match p
    case Closing(h) => s.open == {h}
    case Opening(h, target) => s.open == {h} && s.boundTo == None && !s.sink && target.enabled
    case _ => s.open == {} && s.boundTo == None && !s.sink
  }

  ghost predicate HandlesOk(s: State)
  {
    ((forall i :: 0 <= i < |s.chain| ==> !IsActive(s.chain, i)) ==> Resting(s)) &&
    (forall i :: 0 <= i < |s.chain| && IsActive(s.chain, i) ==> InPhase(s, s.chain[i])) &&
    (forall h :: h in s.open ==> h < s.nextHandle)
  }

  /** A bind was attempted exactly when there is to be a socket, and an open one is where it should be. */
  predicate UpToDate(r: Run)
  {
    (r.s.settings.enabled <==> r.bind != Untried) &&
    (r.s.socket.Some? ==> r.s.boundTo == Some(BindingOf(r.s.settings)))
  }

  /** The socket that is open is the one the last bind opened. */
  ghost predicate BindAgrees(r: Run)
  {
    (r.s.socket.Some? <==> r.bind == Listening) &&
    (forall i :: 0 <= i < |r.s.chain| && IsActive(r.s.chain, i) ==> r.bind == Untried)
  }

  /** When every save has queued its restart, the last task has yet to read the settings, or
      has read the ones in force, or has left the socket on them. */
  ghost predicate LastTaskCurrent(r: Run)
  {
    r.s.chain != [] &&
    (!r.unqueued ==>
       match r.s.chain[|r.s.chain| - 1]
       case Opening(_, target) => target == r.s.settings
       case Done => UpToDate(r)
       case _ => true)
  }

  ghost predicate CountersOk(r: Run)
  {
    r.s.counters.allowlistChangedAt <= r.s.counters.datagrams &&
    (r.s.socket.Some? ==>
       r.s.counters.datagrams == r.received && r.s.counters.notAllowed == r.refusedUnder &&
       UnderAllowlist(r.s.counters) == r.receivedUnder) &&
    (forall i :: 0 <= i < |r.s.chain| && (r.s.chain[i].Opening? || r.s.chain[i] == Booting) ==>
       r.s.counters.datagrams == 0 && r.s.counters.notAllowed == 0)
  }

  ghost predicate Sound(r: Run)
  {
    InTurn(r.s.chain) && HandlesOk(r.s) && BindAgrees(r) && LastTaskCurrent(r) && CountersOk(r)
  }

  // ---------- the chain ----------

  /** A task under way is alone: those before it are done, those after it wait. */
  lemma ActiveIsAlone(chain: seq<Phase>, i: nat)
    requires InTurn(chain) && IsActive(chain, i)
    ensures forall k :: 0 <= k < i ==> chain[k] == Done
    ensures forall k :: i < k < |chain| ==> chain[k] == Waiting
  {
    forall k | i < k < |chain| ensures chain[k] == Waiting {
      assert chain[i] != Done;
    }
  }

  /** Nothing is under way when the next task may begin. */
  lemma BeginIsAlone(chain: seq<Phase>, i: nat)
    requires InTurn(chain) && i < |chain| && chain[i] == Waiting && (i == 0 || chain[i - 1] == Done)
    ensures forall k :: 0 <= k < i ==> chain[k] == Done
    ensures forall k :: i < k < |chain| ==> chain[k] == Waiting
  {
    forall k | 0 <= k < i ensures chain[k] == Done {
      assert k < i - 1 ==> chain[k] == Done;
    }
    forall k | i < k < |chain| ensures chain[k] == Waiting {
      assert chain[i] == Waiting;
    }
  }

  ghost predicate AloneAt(chain: seq<Phase>, i: nat)
  {
    i < |chain| && (forall k :: 0 <= k < i ==> chain[k] == Done) &&
    (forall k :: i < k < |chain| ==> chain[k] == Waiting)
  }

  /** Where one task is alone, the invariant on handles is about that task only. */
  lemma HandlesAt(s: State, i: nat)
    requires AloneAt(s.chain, i) && forall h :: h in s.open ==> h < s.nextHandle
    requires if IsActive(s.chain, i) then InPhase(s, s.chain[i]) else Resting(s)
    ensures InTurn(s.chain) && HandlesOk(s)
  {
  }

  lemma HandlesFrom(s: State, i: nat)
    requires AloneAt(s.chain, i) && HandlesOk(s)
    ensures if IsActive(s.chain, i) then InPhase(s, s.chain[i]) else Resting(s)
  {
  }

  lemma BeginKeeps(s: State, i: nat)
    requires InTurn(s.chain) && HandlesOk(s) && CanBegin(s, i, true)
    ensures InTurn(BeginStop(s, i).chain) && HandlesOk(BeginStop(s, i)) && AloneAt(s.chain, i)
  {
    BeginIsAlone(s.chain, i);
    HandlesFrom(s, i);
    HandlesAt(BeginStop(s, i), i);
  }

  lemma CloseKeeps(s: State, i: nat)
    requires InTurn(s.chain) && HandlesOk(s) && i < |s.chain| && s.chain[i].Closing?
    ensures InTurn(FinishClose(s, i).chain) && HandlesOk(FinishClose(s, i)) && AloneAt(s.chain, i)
  {
    ActiveIsAlone(s.chain, i);
    HandlesFrom(s, i);
    HandlesAt(FinishClose(s, i), i);
  }

  lemma StartKeeps(s: State, i: nat)
    requires InTurn(s.chain) && HandlesOk(s) && CanStart(s, i)
    ensures InTurn(BeginStart(s, i).chain) && HandlesOk(BeginStart(s, i)) && AloneAt(s.chain, i)
    ensures s.socket == None && s.open == {}
  {
    ActiveIsAlone(s.chain, i);
    HandlesFrom(s, i);
    HandlesAt(BeginStart(s, i), i);
  }

  lemma BindKeeps(s: State, i: nat)
    requires InTurn(s.chain) && HandlesOk(s) && i < |s.chain| && s.chain[i].Opening?
    ensures InTurn(BindSucceeds(s, i).chain) && HandlesOk(BindSucceeds(s, i)) && AloneAt(s.chain, i)
    ensures s.chain[i].target.enabled
  {
    ActiveIsAlone(s.chain, i);
    HandlesFrom(s, i);
    HandlesAt(BindSucceeds(s, i), i);
  }

  /** A failed bind leaves no handle behind. */
  lemma FailKeeps(s: State, i: nat)
    requires InTurn(s.chain) && HandlesOk(s) && i < |s.chain| && s.chain[i].Opening?
    ensures InTurn(BindFails(s, i).chain) && HandlesOk(BindFails(s, i)) && AloneAt(s.chain, i)
    ensures BindFails(s, i).open == {} && BindFails(s, i).socket == None
  {
    ActiveIsAlone(s.chain, i);
    HandlesFrom(s, i);
    HandlesAt(BindFails(s, i), i);
  }

  lemma QueueKeeps(s: State)
    requires InTurn(s.chain) && HandlesOk(s)
    ensures var next := s.(chain := s.chain + [Waiting]); InTurn(next.chain) && HandlesOk(next)
    ensures forall i :: 0 <= i <= |s.chain| && IsActive(s.chain + [Waiting], i) ==> IsActive(s.chain, i)
  {
    var next := s.(chain := s.chain + [Waiting]);
    if forall i :: 0 <= i < |next.chain| ==> !IsActive(next.chain, i) {
      forall i | 0 <= i < |s.chain| ensures !IsActive(s.chain, i) {
        assert !IsActive(next.chain, i);
      }
    }
    forall i | 0 <= i < |next.chain| && IsActive(next.chain, i) ensures InPhase(next, next.chain[i]) {
      assert IsActive(s.chain, i);
    }
  }

  lemma IdleIsResting(s: State)
    requires HandlesOk(s) && Idle(s)
    ensures Resting(s)
  {
    forall i | 0 <= i < |s.chain| ensures !IsActive(s.chain, i) {
      assert s.chain[i] in s.chain;
    }
  }

  // ---------- every step keeps the invariant ----------

  /** A task that moves on without being the last leaves the last one waiting. */
  lemma LastAfter(r: Run, i: nat, p: Phase, next: Run)
    requires LastTaskCurrent(r) && AloneAt(r.s.chain, i) && next.s.chain == r.s.chain[i := p]
    requires next.unqueued == r.unqueued
    requires i == |r.s.chain| - 1 && !r.unqueued ==>
               match p
               case Opening(_, target) => target == next.s.settings
               case Done => UpToDate(next)
               case _ => true
    ensures LastTaskCurrent(next)
  {
  }

  lemma BindAfter(r: Run, i: nat, p: Phase, next: Run)
    requires AloneAt(r.s.chain, i) && next.s.chain == r.s.chain[i := p]
    requires next.s.socket.Some? <==> next.bind == Listening
    requires p != Done ==> next.bind == Untried
    ensures BindAgrees(next)
  {
  }

  lemma BeginStep(r: Run, i: nat)
    requires Sound(r)
    ensures Sound(Step(r, BeginRebind(i), true))
  {
    var next := Step(r, BeginRebind(i), true);
    if CanBegin(r.s, i, true) {
      BeginKeeps(r.s, i);
      LastAfter(r, i, next.s.chain[i], next);
      BindAfter(r, i, next.s.chain[i], next);
    }
  }

  lemma ClosedStep(r: Run, i: nat)
    requires Sound(r)
    ensures Sound(Step(r, Closed(i), true))
  {
    var next := Step(r, Closed(i), true);
    if i < |r.s.chain| && r.s.chain[i].Closing? {
      CloseKeeps(r.s, i);
      LastAfter(r, i, Flushing, next);
      assert IsActive(r.s.chain, i);
      BindAfter(r, i, Flushing, next);
    }
  }

  lemma FlushedStep(r: Run, i: nat)
    requires Sound(r)
    ensures Sound(Step(r, Flushed(i), true))
  {
    var next := Step(r, Flushed(i), true);
    if CanStart(r.s, i) {
      StartKeeps(r.s, i);
      assert IsActive(r.s.chain, i);
      LastAfter(r, i, next.s.chain[i], next);
      BindAfter(r, i, next.s.chain[i], next);
    }
  }

  lemma BindSteps(r: Run, e: Event)
    requires Sound(r) && (e.BindOk? || e.BindError?)
    ensures Sound(Step(r, e, true))
  {
    var next := Step(r, e, true);
    match e {
      case BindOk(i) =>
        if i < |r.s.chain| && r.s.chain[i].Opening? {
          BindKeeps(r.s, i);
          LastAfter(r, i, Done, next);
          BindAfter(r, i, Done, next);
        }
      case BindError(i) =>
        if i < |r.s.chain| && r.s.chain[i].Opening? {
          FailKeeps(r.s, i);
          LastAfter(r, i, Done, next);
          BindAfter(r, i, Done, next);
        }
    }
  }

  lemma OtherSteps(r: Run, e: Event)
    requires Sound(r) && !(e.BeginRebind? || e.Closed? || e.Flushed? || e.BindOk? || e.BindError?)
    ensures Sound(Step(r, e, true))
  {
    match e {
      case QueueRestart => QueueKeeps(r.s);
      case SocketError => if Idle(r.s) { IdleIsResting(r.s); }
      case _ =>
    }
  }

  lemma {:induction false} RunsAreSound(settings: Settings, events: seq<Event>)
    ensures Sound(After(settings, events, true))
  {
    if events != [] {
      RunsAreSound(settings, events[..|events| - 1]);
      var r, e := After(settings, events[..|events| - 1], true), events[|events| - 1];
      if e.BeginRebind? {
        BeginStep(r, e.task);
      } else if e.Closed? {
        ClosedStep(r, e.task);
      } else if e.Flushed? {
        FlushedStep(r, e.task);
      } else if e.BindOk? || e.BindError? {
        BindSteps(r, e);
      } else {
        OtherSteps(r, e);
      }
    }
  }

  // ---------- main results ----------

  /** Rebinds never overlap, and the process never holds two handles. */
  lemma RebindsNeverOverlap(settings: Settings, events: seq<Event>, i: nat, j: nat)
    requires IsActive(After(settings, events, true).s.chain, i)
    requires IsActive(After(settings, events, true).s.chain, j)
    ensures i == j
  {
    RunsAreSound(settings, events);
    var chain := After(settings, events, true).s.chain;
    ActiveIsAlone(chain, i);
  }

  lemma AtMostOneHandle(settings: Settings, events: seq<Event>)
    ensures var s := After(settings, events, true).s;
            |s.open| <= 1 && (s.socket.Some? ==> s.open == {s.socket.value} && s.boundTo.Some? && s.sink) &&
            (Idle(s) && s.socket == None ==> s.open == {} && !s.sink)
  {
    RunsAreSound(settings, events);
    var s := After(settings, events, true).s;
    if i :| 0 <= i < |s.chain| && IsActive(s.chain, i) {
      assert InPhase(s, s.chain[i]);
    } else {
      assert Resting(s);
    }
    if Idle(s) { IdleIsResting(s); }
  }

  /** Once the chain is idle and every save has queued its restart, there is a socket exactly when the
      collector is switched on and its bind neither failed nor was ended by an error, and it is bound
      to the settings in force. */
  lemma SettledOnCurrentSettings(settings: Settings, events: seq<Event>)
    requires Idle(After(settings, events, true).s) && !After(settings, events, true).unqueued
    ensures var r := After(settings, events, true);
            (r.s.socket.Some? <==> r.s.settings.enabled && r.bind != Failed && r.bind != Errored) &&
            (r.s.socket.Some? ==> r.s.boundTo == Some(Binding(r.s.settings.port, r.s.settings.bindAddress))) &&
            !OutOfDate(r.s)
  {
    RunsAreSound(settings, events);
    var s := After(settings, events, true).s;
    assert s.chain[|s.chain| - 1] in s.chain;
  }

  /** While a socket is open the counters cover exactly what it has brought, and the refusals
      cover the same span as the total they are compared with. */
  lemma CountersBelongToTheBinding(settings: Settings, events: seq<Event>)
    requires After(settings, events, true).s.socket.Some?
    ensures var r := After(settings, events, true);
            r.s.counters.datagrams == r.received && r.s.counters.notAllowed == r.refusedUnder &&
            UnderAllowlist(r.s.counters) == r.receivedUnder
  {
    RunsAreSound(settings, events);
  }

  predicate CanMove(s: State, i: nat)
  {
    CanBegin(s, i, true) || CanStart(s, i) || (i < |s.chain| && (s.chain[i].Closing? || s.chain[i].Opening?))
  }

  lemma {:induction false} FirstUnfinished(s: State, k: nat) returns (i: nat)
    requires k < |s.chain| && s.chain[k] != Done
    ensures CanMove(s, i)
  {
    i := k;
    if k > 0 && s.chain[k - 1] != Done {
      i := FirstUnfinished(s, k - 1);
    }
  }

  /** The chain cannot get stuck: while any restart is unfinished, one of them can move. */
  lemma ChainNeverStuck(settings: Settings, events: seq<Event>) returns (i: nat)
    requires !Idle(After(settings, events, true).s)
    ensures CanMove(After(settings, events, true).s, i)
  {
    var s := After(settings, events, true).s;
    var k :| 0 <= k < |s.chain| && s.chain[k] != Done;
    i := FirstUnfinished(s, k);
  }

  // ---------- without the chain ----------

  /** Two saves, two rebinds let run into each other: the second stops nothing, because the first
      has not assigned its socket yet, and starts nothing, because by then it has. */
  function TwoSavers(s1: Settings, s2: Settings): seq<Event>
  {
    [Flushed(0), BindOk(0), Save(s1), QueueRestart, BeginRebind(1), Closed(1), Flushed(1),
     Save(s2), QueueRestart, BeginRebind(2), BindOk(1), Flushed(2)]
  }

  lemma OneMore(s0: Settings, events: seq<Event>, n: nat, r: Run)
    requires n < |events| && After(s0, events[..n], false) == r
    ensures After(s0, events[..n + 1], false) == Step(r, events[n], false)
  {
    assert events[..n + 1][..n] == events[..n];
  }

  function Saved(s: Settings, socket: Option<nat>, bound: Option<Binding>, open: set<nat>, next: nat,
                 chain: seq<Phase>, unqueued: bool, bind: Bind): Run
  {
    Run(State(s, socket, bound, bound.Some?, ZERO, open, next, chain), unqueued, bind, 0, 0, 0)
  }

  lemma BootOpens(s0: Settings, s1: Settings, s2: Settings)
    requires s0.enabled
    ensures After(s0, TwoSavers(s1, s2)[..4], false) ==
            Saved(s1, Some(0), Some(BindingOf(s0)), {0}, 1, [Done, Waiting], false, Listening)
  {
    var e := TwoSavers(s1, s2);
    OneMore(s0, e, 0, Run(AtBoot(s0), false, Untried, 0, 0, 0));
    OneMore(s0, e, 1, Saved(s0, None, None, {0}, 1, [Opening(0, s0)], false, Untried));
    OneMore(s0, e, 2, Saved(s0, Some(0), Some(BindingOf(s0)), {0}, 1, [Done], false, Listening));
    OneMore(s0, e, 3, Saved(s1, Some(0), Some(BindingOf(s0)), {0}, 1, [Done], s1 != s0, Listening));
  }

  lemma FirstRebindStops(s0: Settings, s1: Settings, s2: Settings)
    requires s0.enabled
    ensures After(s0, TwoSavers(s1, s2)[..5], false) ==
            Saved(s1, None, Some(BindingOf(s0)), {0}, 1, [Done, Closing(0)], false, Untried)
  {
    BootOpens(s0, s1, s2);
    OneMore(s0, TwoSavers(s1, s2), 4,
            Saved(s1, Some(0), Some(BindingOf(s0)), {0}, 1, [Done, Waiting], false, Listening));
  }

  lemma FirstRebindCloses(s0: Settings, s1: Settings, s2: Settings)
    requires s0.enabled
    ensures After(s0, TwoSavers(s1, s2)[..6], false) == Saved(s1, None, None, {}, 1, [Done, Flushing], false, Untried)
  {
    FirstRebindStops(s0, s1, s2);
    OneMore(s0, TwoSavers(s1, s2), 5, Saved(s1, None, Some(BindingOf(s0)), {0}, 1, [Done, Closing(0)], false, Untried));
  }

  lemma FirstRebindOpens(s0: Settings, s1: Settings, s2: Settings)
    requires s0.enabled && s1.enabled
    ensures After(s0, TwoSavers(s1, s2)[..7], false) ==
            Saved(s1, None, None, {1}, 2, [Done, Opening(1, s1)], false, Untried)
  {
    FirstRebindCloses(s0, s1, s2);
    OneMore(s0, TwoSavers(s1, s2), 6, Saved(s1, None, None, {}, 1, [Done, Flushing], false, Untried));
  }

  lemma SecondSaveQueues(s0: Settings, s1: Settings, s2: Settings)
    requires s0.enabled && s1.enabled
    ensures After(s0, TwoSavers(s1, s2)[..9], false) ==
            Saved(s2, None, None, {1}, 2, [Done, Opening(1, s1), Waiting], false, Untried)
  {
    var e := TwoSavers(s1, s2);
    FirstRebindOpens(s0, s1, s2);
    OneMore(s0, e, 7, Saved(s1, None, None, {1}, 2, [Done, Opening(1, s1)], false, Untried));
    OneMore(s0, e, 8, Saved(s2, None, None, {1}, 2, [Done, Opening(1, s1)], s1 != s2, Untried));
  }

  lemma SecondRebindStops(s0: Settings, s1: Settings, s2: Settings)
    requires s0.enabled && s1.enabled
    ensures After(s0, TwoSavers(s1, s2)[..10], false) ==
            Saved(s2, None, None, {1}, 2, [Done, Opening(1, s1), Flushing], false, Untried)
  {
    SecondSaveQueues(s0, s1, s2);
    OneMore(s0, TwoSavers(s1, s2), 9, Saved(s2, None, None, {1}, 2, [Done, Opening(1, s1), Waiting], false, Untried));
  }

  /** So an unserialised rebind ends idle, every save restarted, on settings no longer in force. */
  lemma UnserialisedGoesStale(s0: Settings, s1: Settings, s2: Settings)
    requires s0.enabled && s1.enabled && s2.enabled && BindingOf(s1) != BindingOf(s2)
    ensures var r := After(s0, TwoSavers(s1, s2), false);
            Idle(r.s) && !r.unqueued && r.s.settings == s2 && OutOfDate(r.s)
  {
    var e := TwoSavers(s1, s2);
    SecondRebindStops(s0, s1, s2);
    OneMore(s0, e, 10, Saved(s2, None, None, {1}, 2, [Done, Opening(1, s1), Flushing], false, Untried));
    OneMore(s0, e, 11, Saved(s2, Some(1), Some(BindingOf(s1)), {1}, 2, [Done, Done, Flushing], false, Listening));
    assert e[..12] == e;
  }
}
