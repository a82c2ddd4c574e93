/**
 The flow collector's socket and the chain of restarts that rebinds it.

 A rebind is one asynchronous call; it is cut here at each of its waits, and settings may be
 saved, restarts queued and datagrams received in between.
 */
module Collectors {
  import opened Options

  /** What a save can change: whether to listen, and where. */
  datatype Settings = Settings(enabled: bool, port: nat, bindAddress: string)

  datatype Binding = Binding(port: nat, bindAddress: string)

  function BindingOf(s: Settings): Binding { Binding(s.port, s.bindAddress) }

  /** What has come in over the present socket, and how much of it was refused. */
  datatype Counters = Counters(
    datagrams: nat, records: nat, malformed: nat, notAllowed: nat, sflow: nat, unsupportedVersion: nat,
    exporters: set<string>, warnedAboutSflow: bool, allowlistChangedAt: nat
  )

  const ZERO: Counters := Counters(0, 0, 0, 0, 0, 0, {}, false, 0)

  /** Where a restart has got to. `Booting` is the start made at boot, which has no stop before it. */
  datatype Phase = Waiting | Closing(closing: nat) | Flushing | Booting | Opening(handle: nat, target: Settings) | Done

  /** The collector, the settings in force, the handles the process holds open, and the chain. */
  datatype State = State(
    settings: Settings, socket: Option<nat>, boundTo: Option<Binding>, sink: bool, counters: Counters,
    open: set<nat>, nextHandle: nat, chain: seq<Phase>
  )

  function AtBoot(settings: Settings): State
  {
    State(settings, None, None, false, ZERO, {}, 0, [Booting])
  }

  /** The first half of `stop`: the socket is let go at once and closed in the background. */
  function BeginStop(s: State, i: nat): State
    requires i < |s.chain|
  {
    match s.socket
    case Some(h) => s.(socket := None, chain := s.chain[i := Closing(h)])
    case None => s.(boundTo := None, sink := false, chain := s.chain[i := Flushing])
  }

  function FinishClose(s: State, i: nat): State
    requires i < |s.chain| && s.chain[i].Closing?
  {
    s.(open := s.open - {s.chain[i].closing}, boundTo := None, sink := false, chain := s.chain[i := Flushing])
  }

  /** After the stop: the counters start again, the settings are read, and binding begins. */
  function BeginStart(s: State, i: nat): State
    requires i < |s.chain|
  {
    var r := if s.chain[i] == Booting then s else s.(counters := ZERO);
    if !s.settings.enabled || s.socket.Some? then r.(chain := s.chain[i := Done])
    else r.(open := s.open + {s.nextHandle}, nextHandle := s.nextHandle + 1,
            chain := s.chain[i := Opening(s.nextHandle, s.settings)])
  }

  function BindSucceeds(s: State, i: nat): State
    requires i < |s.chain| && s.chain[i].Opening?
  {
    s.(socket := Some(s.chain[i].handle), boundTo := Some(BindingOf(s.chain[i].target)), sink := true,
       chain := s.chain[i := Done])
  }

  /** The bind fails: its handle is closed, and the restart is over. */
  function BindFails(s: State, i: nat): State
    requires i < |s.chain| && s.chain[i].Opening?
  {
    s.(open := s.open - {s.chain[i].handle}, chain := s.chain[i := Done])
  }

  /** There is a socket, and its port or address differs from what is configured now. */
  predicate OutOfDate(s: State)
  {
    s.socket.Some? && s.boundTo.Some? && s.boundTo.value != BindingOf(s.settings)
  }

  function Received(c: Counters, allowed: bool): Counters
  {
    c.(datagrams := c.datagrams + 1, notAllowed := if allowed then c.notAllowed else c.notAllowed + 1)
  }

  function RefusalsReset(c: Counters): Counters { c.(notAllowed := 0, allowlistChangedAt := c.datagrams) }

  function UnderAllowlist(c: Counters): int { c.datagrams - c.allowlistChangedAt }

  // ---------- the classes ----------

  class FlowCollector {
    var socket: Option<nat>
    var boundTo: Option<Binding>
    var sink: bool
    var counters: Counters

    constructor ()
      ensures socket == None && boundTo == None && !sink && counters == ZERO
    {
      socket, boundTo, sink, counters := None, None, false, ZERO;
    }

    method BindingIsOutOfDate(settings: Settings) returns (r: bool)
      ensures r <==> socket.Some? && boundTo.Some? && boundTo.value != BindingOf(settings)
    {
      if socket == None || boundTo == None { return false; }
      return boundTo.value.port != settings.port || boundTo.value.bindAddress != settings.bindAddress;
    }

    method ResetForRebind()
      modifies this`counters
      ensures counters == Counters(0, 0, 0, 0, 0, 0, {}, false, 0)
    {
      counters := counters.(datagrams := 0, records := 0, malformed := 0);
      counters := counters.(notAllowed := 0, sflow := 0, unsupportedVersion := 0);
      counters := counters.(exporters := {}, warnedAboutSflow := false, allowlistChangedAt := 0);
    }

    method ResetRefusals()
      modifies this`counters
      ensures counters == RefusalsReset(old(counters))
    {
      counters := counters.(notAllowed := 0);
      counters := counters.(allowlistChangedAt := counters.datagrams);
    }

    /** The counting at the head of the datagram handler. */
    method CountDatagram(allowed: bool)
      modifies this`counters
      ensures counters == Received(old(counters), allowed)
    {
      counters := counters.(datagrams := counters.datagrams + 1);
      if !allowed {
        counters := counters.(notAllowed := counters.notAllowed + 1);
      }
    }
  }

  /** The process around the collector: its settings, its handles, and the restart chain. */
  class Restarts {
    const collector: FlowCollector
    var settings: Settings
    var open: set<nat>
    var nextHandle: nat
    var restartInFlight: seq<Phase>

    constructor (settings: Settings)
      ensures Now() == AtBoot(settings) && fresh(collector)
    {
      collector := new FlowCollector();
      this.settings, open, nextHandle, restartInFlight := settings, {}, 0, [Booting];
    }

    function Now(): State
      reads this, collector
    {
      State(settings, collector.socket, collector.boundTo, collector.sink, collector.counters,
            open, nextHandle, restartInFlight)
    }

    method RestartFlowCollector()
      modifies this`restartInFlight
      ensures Now() == old(Now()).(chain := old(restartInFlight) + [Waiting])
    {
      restartInFlight := restartInFlight + [Waiting];
    }

    method Stop(i: nat)
      requires i < |restartInFlight|
      modifies this`restartInFlight, collector
      ensures Now() == BeginStop(old(Now()), i)
    {
      var socket := collector.socket;
      collector.socket := None;
      if socket.Some? {
        restartInFlight := restartInFlight[i := Closing(socket.value)];
      } else {
        collector.boundTo, collector.sink := None, false;
        restartInFlight := restartInFlight[i := Flushing];
      }
    }

    method SocketClosed(i: nat)
      requires i < |restartInFlight| && restartInFlight[i].Closing?
      modifies this`restartInFlight, this`open, collector
      ensures Now() == FinishClose(old(Now()), i)
    {
      open := open - {restartInFlight[i].closing};
      collector.boundTo, collector.sink := None, false;
      restartInFlight := restartInFlight[i := Flushing];
    }

    method Start(i: nat)
      requires i < |restartInFlight|
      modifies this, collector
      ensures Now() == BeginStart(old(Now()), i)
    {
      if restartInFlight[i] != Booting { collector.ResetForRebind(); }
      if !settings.enabled || collector.socket.Some? {
        restartInFlight := restartInFlight[i := Done];
        return;
      }
      var handle := nextHandle;
      open, nextHandle := open + {handle}, handle + 1;
      restartInFlight := restartInFlight[i := Opening(handle, settings)];
    }

    method Bound(i: nat)
      requires i < |restartInFlight| && restartInFlight[i].Opening?
      modifies this`restartInFlight, collector
      ensures Now() == BindSucceeds(old(Now()), i)
    {
      var phase := restartInFlight[i];
      collector.socket, collector.sink := Some(phase.handle), true;
      collector.boundTo := Some(Binding(phase.target.port, phase.target.bindAddress));
      restartInFlight := restartInFlight[i := Done];
    }

    method BindFailed(i: nat)
      requires i < |restartInFlight| && restartInFlight[i].Opening?
      modifies this`restartInFlight, this`open
      ensures Now() == BindFails(old(Now()), i)
    {
      open := open - {restartInFlight[i].handle};
      restartInFlight := restartInFlight[i := Done];
    }
  }
}
