/** RabbitMQService: connecting, the close handler and the reconnect timer. */
module Reconnect {
  import opened Backoff
  import opened Seqs

  const BASE_RECONNECT_DELAY_MS: nat := 1_000
  const MAX_RECONNECT_DELAY_MS: nat := 30_000

  // ---------- the simple machine ----------

  datatype Phase = Idle | Connecting | Connected | Waiting

  /** armed: the delays of the timers armed since the last successful connect. */
  datatype Machine = Machine(phase: Phase, armed: seq<nat>)

  datatype Event = Started | ConnectSucceeded | ConnectFailed | Closed | TimerFired

  predicate Enabled(m: Machine, e: Event) {
    match e
    case Started => m.phase == Idle
    case ConnectSucceeded => m.phase == Connecting
    case ConnectFailed => m.phase == Connecting
    case Closed => m.phase == Connected
    case TimerFired => m.phase == Waiting
  }

  function Waits(m: Machine): Machine {
    Machine(Waiting, m.armed + [Delay(BASE_RECONNECT_DELAY_MS, MAX_RECONNECT_DELAY_MS, |m.armed|)])
  }

  function Next(m: Machine, e: Event): Machine
    requires Enabled(m, e)
  {
    match e
    case Started => m.(phase := Connecting)
    case ConnectSucceeded => Machine(Connected, [])
    case ConnectFailed => Waits(m)
    case Closed => Waits(m)
    case TimerFired => m.(phase := Connecting)
  }

  predicate Run(states: seq<Machine>, events: seq<Event>) {
    && |states| == |events| + 1
    && states[0] == Machine(Idle, [])
    && forall i :: 0 <= i < |events| ==> Enabled(states[i], events[i]) && states[i + 1] == Next(states[i], events[i])
  }

  // ---------- what a row of events amounts to ----------

  function PhaseAfter(events: seq<Event>): Phase {
    if events == [] then Idle else
    match events[|events| - 1]
    case Started => Connecting
    case TimerFired => Connecting
    case ConnectSucceeded => Connected
    case ConnectFailed => Waiting
    case Closed => Waiting
  }

  /** How many failed connects and closed connections there were since the last success. */
  function Attempts(events: seq<Event>): nat {
    if events == [] then 0 else
    match events[|events| - 1]
    case ConnectSucceeded => 0
    case ConnectFailed => Attempts(events[..|events| - 1]) + 1
    case Closed => Attempts(events[..|events| - 1]) + 1
    case _ => Attempts(events[..|events| - 1])
  }

  /** The machine is where the events say. */
  lemma {:induction false} RunState(states: seq<Machine>, events: seq<Event>, i: nat)
    requires Run(states, events) && i < |states|
    ensures states[i].phase == PhaseAfter(events[..i]) && |states[i].armed| == Attempts(events[..i])
    ensures BackoffRow(states[i].armed, BASE_RECONNECT_DELAY_MS, MAX_RECONNECT_DELAY_MS)
  {
    if i > 0 {
      RunState(states, events, i - 1);
      assert Enabled(states[i - 1], events[i - 1]) && states[i] == Next(states[i - 1], events[i - 1]);
      assert events[..i][..i - 1] == events[..i - 1];
    }
  }

  /** In every run the delays since the last success, one for each failed connect and each closed
      connection, double from 1 s up to 30 s, and n of them sum to 1000 * (2^n - 1) for n <= 5 and to
      31000 + 30000 * (n - 5) beyond. */
  lemma RunDelays(states: seq<Machine>, events: seq<Event>, i: nat)
    requires Run(states, events) && i < |states|
    ensures |states[i].armed| == Attempts(events[..i])
    ensures BackoffRow(states[i].armed, BASE_RECONNECT_DELAY_MS, MAX_RECONNECT_DELAY_MS)
    ensures var n := |states[i].armed|;
            Sum(states[i].armed) == if n <= 5 then 1000 * (Pow2(n) - 1) else 31_000 + 30_000 * (n - 5)
    ensures states[i].phase == Connected ==> states[i].armed == []
    ensures states[i].phase == Waiting ==> states[i].armed != []
  {
    RunState(states, events, i);
    if i > 0 {
      assert events[..i][..i - 1] == events[..i - 1];
    }
    assert Pow2(5) == 32 && Pow2(4) == 16;
    RowSum(states[i].armed, BASE_RECONNECT_DELAY_MS, MAX_RECONNECT_DELAY_MS, 5);
  }

  // ---------- the service ----------

  class RabbitMQService {
    var connection: bool        // this.connection is not null
    var channel: bool           // this.channel is not null
    var isConnecting: bool
    var reconnectAttempts: nat
    var reconnectTimer: bool    // this.reconnectTimer is not null

    // What the runtime holds for the service.
    var connectsInFlight: nat   // connect() bodies waiting on the broker
    var closeHandlers: nat      // live connections that carry our 'close' handler
    var timers: seq<nat>        // armed timers that have not fired, by delay

    ghost var machine: Machine

    /** The fields are always in one of the four phases, never between two. */
    ghost predicate Valid()
      reads this
    {
      && BackoffRow(machine.armed, BASE_RECONNECT_DELAY_MS, MAX_RECONNECT_DELAY_MS)
      && reconnectAttempts == |machine.armed|
      && reconnectTimer == (timers != [])
      && isConnecting == (connectsInFlight > 0)
      && match machine.phase
         case Idle => connectsInFlight == 0 && closeHandlers == 0 && timers == [] && machine.armed == []
         case Connecting => connectsInFlight == 1 && closeHandlers == 0 && timers == []
         case Connected => connectsInFlight == 0 && closeHandlers == 1 && timers == [] && machine.armed == [] &&
                           connection && channel
         case Waiting => connectsInFlight == 0 && closeHandlers == 0 && machine.armed != [] &&
                         timers == [machine.armed[|machine.armed| - 1]]
    }

    constructor ()
      ensures Valid() && machine == Machine(Idle, [])
    {
      connection, channel, isConnecting, reconnectTimer := false, false, false, false;
      reconnectAttempts, connectsInFlight, closeHandlers, timers := 0, 0, 0, [];
      machine := Machine(Idle, []);
    }

    /** connect() up to its first await. */
    method BeginConnect()
      modifies `isConnecting, `connectsInFlight
      ensures isConnecting
      ensures connectsInFlight == old(connectsInFlight) + if old(isConnecting) then 0 else 1
    {
      if isConnecting {
        return;
      }
      isConnecting := true;
      connectsInFlight := connectsInFlight + 1;
    }

    method OnModuleInit(enabled: bool)
      requires Valid() && machine.phase == Idle
      modifies this
      ensures Valid()
      ensures machine == if enabled then Next(old(machine), Started) else old(machine)
    {
      if !enabled {
        return;
      }
      BeginConnect();
      machine := Next(machine, Started);
    }

    method ScheduleReconnect()
      modifies `reconnectAttempts, `timers, `reconnectTimer
      ensures reconnectTimer
      ensures old(reconnectTimer) ==> timers == old(timers) && reconnectAttempts == old(reconnectAttempts)
      ensures !old(reconnectTimer) ==>
        reconnectAttempts == old(reconnectAttempts) + 1 &&
        timers == old(timers) + [Delay(BASE_RECONNECT_DELAY_MS, MAX_RECONNECT_DELAY_MS, old(reconnectAttempts))]
    {
      if reconnectTimer {
        return;
      }
      var doubled := BASE_RECONNECT_DELAY_MS * Pow2(reconnectAttempts);
      var delay := if doubled <= MAX_RECONNECT_DELAY_MS then doubled else MAX_RECONNECT_DELAY_MS;
      reconnectAttempts := reconnectAttempts + 1;
      timers := timers + [delay];
      reconnectTimer := true;
    }

    /** Every await of connect() went through: the handlers are attached in the same turn. */
    method ConnectSucceeds()
      requires Valid() && connectsInFlight > 0
      modifies this
      ensures Valid() && Enabled(old(machine), ConnectSucceeded)
      ensures machine == Next(old(machine), ConnectSucceeded)
      ensures connection && channel && !isConnecting && reconnectAttempts == 0 && closeHandlers == 1 && timers == []
    {
      connection, channel := true, true;
      reconnectAttempts := 0;
      isConnecting := false;
      connectsInFlight := connectsInFlight - 1;
      closeHandlers := closeHandlers + 1;
      machine := Next(machine, ConnectSucceeded);
    }

    /** Some await of connect() threw, possibly after the connection or the channel was stored. */
    method ConnectFails(gotConnection: bool, gotChannel: bool)
      requires Valid() && connectsInFlight > 0
      modifies this
      ensures Valid() && Enabled(old(machine), ConnectFailed)
      ensures machine == Next(old(machine), ConnectFailed)
      ensures !isConnecting && reconnectAttempts == old(reconnectAttempts) + 1
      ensures timers == [Delay(BASE_RECONNECT_DELAY_MS, MAX_RECONNECT_DELAY_MS, old(reconnectAttempts))]
    {
      connection := connection || gotConnection;
      channel := channel || (gotConnection && gotChannel);
      isConnecting := false;
      connectsInFlight := connectsInFlight - 1;
      ScheduleReconnect();
      machine := Next(machine, ConnectFailed);
    }

    /** The 'close' event of the connection the handlers sit on. */
    method OnClose()
      requires Valid() && closeHandlers > 0
      modifies this
      ensures Valid() && Enabled(old(machine), Closed)
      ensures machine == Next(old(machine), Closed)
      ensures !connection && !channel && reconnectAttempts == old(reconnectAttempts) + 1
      ensures timers == [Delay(BASE_RECONNECT_DELAY_MS, MAX_RECONNECT_DELAY_MS, old(reconnectAttempts))]
    {
      closeHandlers := closeHandlers - 1;
      channel, connection := false, false;
      ScheduleReconnect();
      machine := Next(machine, Closed);
    }

    /** Any armed timer fires: there is only ever one. */
    method TimerFires(i: nat)
      requires Valid() && i < |timers|
      modifies this
      ensures Valid() && Enabled(old(machine), TimerFired)
      ensures machine == Next(old(machine), TimerFired)
      ensures isConnecting && connectsInFlight == 1 && timers == [] && reconnectAttempts == old(reconnectAttempts)
    {
      timers := timers[..i] + timers[i + 1..];
      reconnectTimer := false;
      BeginConnect();
      machine := Next(machine, TimerFired);
    }
  }

  /** Once started, exactly one thing is pending: a connect, a close handler or a timer. So the
      service is never stuck and never connects twice at once. */
  lemma ExactlyOnePending(s: RabbitMQService)
    requires s.Valid() && s.machine.phase != Idle
    ensures s.connectsInFlight + s.closeHandlers + |s.timers| == 1
    ensures s.isConnecting <==> s.connectsInFlight == 1
    ensures s.reconnectTimer <==> |s.timers| == 1
  {
  }
}
