/** MonitoringAgentService: interval ticks, retry ticks and the retry timer, in any interleaving. */
module Agent {
  import opened Wrappers
  import opened Backoff
  import opened Seqs

  const BASE_RETRY_DELAY_MS: nat := 500
  const MAX_RETRY_DELAY_MS: nat := 16_000

  // ---------- the simple machine ----------

  /** inFlight ticks have started and not finished; armed lists the delays since the last success. */
  datatype Machine = Machine(inFlight: nat, pending: Option<nat>, armed: seq<nat>)

  datatype Event = IntervalTick | TickSucceeded | TickFailed | RetryFired

  predicate Enabled(m: Machine, e: Event) {
    match e
    case IntervalTick => true
    case TickSucceeded => m.inFlight > 0
    case TickFailed => m.inFlight > 0
    case RetryFired => m.pending.Some?
  }

  function Next(m: Machine, e: Event): Machine
    requires Enabled(m, e)
  {
    match e
    case IntervalTick => m.(inFlight := m.inFlight + 1)
    case TickSucceeded => m.(inFlight := m.inFlight - 1, armed := [])
    case TickFailed =>
      var m' := m.(inFlight := m.inFlight - 1);
      if m.pending.Some? then m' else
      var delay := Delay(BASE_RETRY_DELAY_MS, MAX_RETRY_DELAY_MS, |m.armed|);
      m'.(pending := Some(delay), armed := m.armed + [delay])
    case RetryFired => m.(inFlight := m.inFlight + 1, pending := None)
  }

  predicate Run(states: seq<Machine>, events: seq<Event>) {
    && |states| == |events| + 1
    && states[0] == Machine(0, None, [])
    && forall i :: 0 <= i < |events| ==> Enabled(states[i], events[i]) && states[i + 1] == Next(states[i], events[i])
  }

  // ---------- what a row of events amounts to ----------

  /** The last failure has not been followed by its retry yet. */
  predicate TimerPending(events: seq<Event>) {
    events != [] &&
    match events[|events| - 1]
    case TickFailed => true
    case RetryFired => false
    case _ => TimerPending(events[..|events| - 1])
  }

  /** How many failures since the last success found no timer pending. */
  function Attempts(events: seq<Event>): nat {
    if events == [] then 0 else
    var front := events[..|events| - 1];
    match events[|events| - 1]
    case TickSucceeded => 0
    case TickFailed => Attempts(front) + if TimerPending(front) then 0 else 1
    case _ => Attempts(front)
  }

  /** Ticks begun, by the interval or by a retry, less those that ended. */
  function TicksOpen(events: seq<Event>): int {
    if events == [] then 0 else
    TicksOpen(events[..|events| - 1]) +
    match events[|events| - 1]
    case IntervalTick => 1
    case RetryFired => 1
    case TickSucceeded => -1
    case TickFailed => -1
  }

  /** The machine is where the events say. */
  lemma {:induction false} RunState(states: seq<Machine>, events: seq<Event>, i: nat)
    requires Run(states, events) && i < |states|
    ensures states[i].inFlight == TicksOpen(events[..i])
    ensures states[i].pending.Some? <==> TimerPending(events[..i])
    ensures |states[i].armed| == Attempts(events[..i])
    ensures BackoffRow(states[i].armed, BASE_RETRY_DELAY_MS, MAX_RETRY_DELAY_MS)
  {
    if i > 0 {
      RunState(states, events, i - 1);
      assert Enabled(states[i - 1], events[i - 1]) && states[i] == Next(states[i - 1], events[i - 1]);
      assert events[..i][..i - 1] == events[..i - 1];
    }
  }

  /** In every run the delays armed since the last success, one for each failure that found no timer
      pending, double from 0.5 s up to 16 s without ever shrinking, and n of them sum to 500 * (2^n - 1)
      for n <= 6, then to 31500 + 16000 * (n - 6). */
  lemma RunDelays(states: seq<Machine>, events: seq<Event>, i: nat)
    requires Run(states, events) && i < |states|
    ensures var armed := states[i].armed;
            && |armed| == Attempts(events[..i])
            && BackoffRow(armed, BASE_RETRY_DELAY_MS, MAX_RETRY_DELAY_MS)
            && (forall j, k :: 0 <= j <= k < |armed| ==> armed[j] <= armed[k])
            && Sum(armed) == if |armed| <= 6 then 500 * (Pow2(|armed|) - 1) else 31_500 + 16_000 * (|armed| - 6)
  {
    RunState(states, events, i);
    var armed := states[i].armed;
    RowMonotone(armed, BASE_RETRY_DELAY_MS, MAX_RETRY_DELAY_MS);
    assert Pow2(6) == 64 && Pow2(5) == 32;
    RowSum(armed, BASE_RETRY_DELAY_MS, MAX_RETRY_DELAY_MS, 6);
  }

  /** A success resets the row, whether a timer is pending or not; a failure with no timer pending arms
      one with the next delay of the row, which right after a success is 0.5 s; nothing but its firing
      touches a timer that is pending. */
  lemma RunTimers(states: seq<Machine>, events: seq<Event>, i: nat)
    requires Run(states, events) && i < |events|
    ensures var n := Attempts(events[..i]);
            match events[i]
            case TickSucceeded => states[i + 1].armed == [] && states[i + 1].pending == states[i].pending
            case TickFailed =>
              if TimerPending(events[..i]) then states[i + 1].pending == states[i].pending
              else states[i + 1].pending == Some(if 500 * Pow2(n) <= 16_000 then 500 * Pow2(n) else 16_000)
            case RetryFired => TimerPending(events[..i]) && states[i + 1].pending.None?
            case IntervalTick => states[i + 1].pending == states[i].pending
  {
    RunState(states, events, i);
    assert Enabled(states[i], events[i]) && states[i + 1] == Next(states[i], events[i]);
  }

  // ---------- the service ----------

  class MonitoringAgentService {
    var retryTimer: bool      // this.retryTimer is not null
    var retryAttempts: nat

    // What the runtime holds for the service.
    var ticksInFlight: nat
    var timers: seq<nat>      // armed retry timers that have not fired, by delay

    ghost var machine: Machine

    /** At most one retry timer is pending, and the field knows about it. */
    ghost predicate Valid()
      reads this
    {
      && ticksInFlight == machine.inFlight
      && retryAttempts == |machine.armed|
      && retryTimer == machine.pending.Some?
      && timers == if machine.pending.Some? then [machine.pending.value] else []
    }

    constructor ()
      ensures Valid() && machine == Machine(0, None, [])
    {
      retryTimer, retryAttempts, ticksInFlight, timers := false, 0, 0, [];
      machine := Machine(0, None, []);
    }

    /** startInterval's first tick and every setInterval callback, however many ticks are under way. */
    method TickStarts()
      requires Valid()
      modifies this
      ensures Valid() && machine == Next(old(machine), IntervalTick)
      ensures ticksInFlight == old(ticksInFlight) + 1 && timers == old(timers) && retryAttempts == old(retryAttempts)
    {
      ticksInFlight := ticksInFlight + 1;
      machine := Next(machine, IntervalTick);
    }

    method ScheduleRetry()
      modifies `retryTimer, `retryAttempts, `timers
      ensures retryTimer
      ensures old(retryTimer) ==> timers == old(timers) && retryAttempts == old(retryAttempts)
      ensures !old(retryTimer) ==>
        retryAttempts == old(retryAttempts) + 1 &&
        timers == old(timers) + [Delay(BASE_RETRY_DELAY_MS, MAX_RETRY_DELAY_MS, old(retryAttempts))]
    {
      if retryTimer {
        return;
      }
      var doubled := BASE_RETRY_DELAY_MS * Pow2(retryAttempts);
      var delay := if doubled <= MAX_RETRY_DELAY_MS then doubled else MAX_RETRY_DELAY_MS;
      retryAttempts := retryAttempts + 1;
      timers := timers + [delay];
      retryTimer := true;
    }

    /** A tick reaches its end; ok is what publish returned, false too when collecting threw. */
    method TickEnds(ok: bool)
      requires Valid() && ticksInFlight > 0
      modifies this
      ensures Valid() && machine == Next(old(machine), if ok then TickSucceeded else TickFailed)
      ensures ticksInFlight == old(ticksInFlight) - 1
      ensures ok ==> retryAttempts == 0 && timers == old(timers)
      ensures !ok && old(timers) != [] ==> retryAttempts == old(retryAttempts) && timers == old(timers)
      ensures !ok && old(timers) == [] ==>
        retryAttempts == old(retryAttempts) + 1 &&
        timers == [Delay(BASE_RETRY_DELAY_MS, MAX_RETRY_DELAY_MS, old(retryAttempts))]
    {
      ticksInFlight := ticksInFlight - 1;
      machine := Next(machine, if ok then TickSucceeded else TickFailed);
      if ok {
        retryAttempts := 0;
      } else {
        ScheduleRetry();
      }
    }

    method RetryFires(i: nat)
      requires Valid() && i < |timers|
      modifies this
      ensures Valid() && Enabled(old(machine), RetryFired) && machine == Next(old(machine), RetryFired)
      ensures ticksInFlight == old(ticksInFlight) + 1 && timers == [] && retryAttempts == old(retryAttempts)
    {
      timers := timers[..i] + timers[i + 1..];
      retryTimer := false;
      ticksInFlight := ticksInFlight + 1;
      machine := Next(machine, RetryFired);
    }
  }
}
