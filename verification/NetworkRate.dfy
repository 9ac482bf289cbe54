/** SystemMetricsCollector.getNetworkDelta: bytes per second between calls, over exact integers. */
module NetworkRate {

  /** The totals and the clock (ms) of the last successful read. */
  datatype Baseline = Baseline(rx: nat, tx: nat, at: int)

  /** What readProcNetDev and Date.now() gave: nothing when reading threw. */
  datatype Sample = Failed | Read(rx: nat, tx: nat, now: int)

  /** Math.round(n / d): the nearest integer, halves upwards. */
  function Round(n: int, d: int): int
    requires d != 0
  {
    if d > 0 then (2 * n + d) / (2 * d) else (2 * -n - d) / (2 * -d)
  }

  /** Twice the rounding error is at most the divisor. */
  lemma RoundError(n: int, d: int)
    requires d > 0
    ensures -d <= 2 * (Round(n, d) * d - n) <= d
  {
    var q, r := (2 * n + d) / (2 * d), (2 * n + d) % (2 * d);
    assert 2 * n + d == q * (2 * d) + r;
    assert q * (2 * d) == 2 * (q * d);
  }

  /** Bytes per second; an elapsed time of zero counts as one second, and shrinking counters as 0. */
  function Rate(bytes: int, elapsedMs: int): nat {
    var ms := if elapsedMs == 0 then 1000 else elapsedMs;
    var rate := Round(bytes * 1000, ms);
    if rate > 0 then rate else 0
  }

  function After(b: Baseline, s: Sample): Baseline {
    match s case Failed => b case Read(rx, tx, now) => Baseline(rx, tx, now)
  }

  class SystemMetricsCollector {
    var prevNetRx: nat
    var prevNetTx: nat
    var prevTimestamp: int

    function Prev(): Baseline
      reads this
    {
      Baseline(prevNetRx, prevNetTx, prevTimestamp)
    }

    constructor (now: int)
      ensures Prev() == Baseline(0, 0, now)
    {
      prevNetRx, prevNetTx, prevTimestamp := 0, 0, now;
    }

    method GetNetworkDelta(sample: Sample) returns (rx: nat, tx: nat)
      modifies this
      ensures Prev() == After(old(Prev()), sample)
      ensures sample.Failed? ==> rx == 0 && tx == 0
      ensures sample.Read? ==>
        rx == Rate(sample.rx - old(prevNetRx), sample.now - old(prevTimestamp)) &&
        tx == Rate(sample.tx - old(prevNetTx), sample.now - old(prevTimestamp))
    {
      match sample
      case Failed =>
        rx, tx := 0, 0;
      case Read(newRx, newTx, now) =>
        var elapsed := if now - prevTimestamp == 0 then 1000 else now - prevTimestamp;
        var deltaRx := Round((newRx - prevNetRx) * 1000, elapsed);
        var deltaTx := Round((newTx - prevNetTx) * 1000, elapsed);
        rx := if deltaRx > 0 then deltaRx else 0;
        tx := if deltaTx > 0 then deltaTx else 0;
        prevNetRx := newRx;
        prevNetTx := newTx;
        prevTimestamp := now;
    }
  }

  function AfterAll(b: Baseline, samples: seq<Sample>): Baseline {
    if samples == [] then b else After(AfterAll(b, samples[..|samples| - 1]), samples[|samples| - 1])
  }

  /** Reported receive rates times the milliseconds they stand for, over a row of calls. */
  function WeightedRx(b: Baseline, samples: seq<Sample>): int {
    if samples == [] then 0 else
    var before := AfterAll(b, samples[..|samples| - 1]);
    WeightedRx(b, samples[..|samples| - 1]) +
    match samples[|samples| - 1]
    case Failed => 0
    case Read(rx, _, now) => Rate(rx - before.rx, now - before.at) * (now - before.at)
  }

  function WeightedTx(b: Baseline, samples: seq<Sample>): int {
    if samples == [] then 0 else
    var before := AfterAll(b, samples[..|samples| - 1]);
    WeightedTx(b, samples[..|samples| - 1]) +
    match samples[|samples| - 1]
    case Failed => 0
    case Read(_, tx, now) => Rate(tx - before.tx, now - before.at) * (now - before.at)
  }

  /** Successful reads find counters that did not shrink and a clock that moved on. */
  predicate Steady(b: Baseline, samples: seq<Sample>) {
    forall i :: 0 <= i < |samples| && samples[i].Read? ==>
      var before := AfterAll(b, samples[..i]);
      before.rx <= samples[i].rx && before.tx <= samples[i].tx && before.at < samples[i].now
  }

  predicate Near(sum: int, exact: int, elapsedMs: int) {
    -elapsedMs <= 2 * (sum - 1000 * exact) <= elapsedMs
  }

  lemma RateError(bytes: nat, ms: nat)
    requires ms > 0
    ensures Near(Rate(bytes, ms) * ms, bytes, ms)
  {
    RoundError(bytes * 1000, ms);
    assert 2 * (bytes * 1000) + ms >= 0;
    assert Round(bytes * 1000, ms) >= 0;
  }

  lemma RoundNonPositive(n: int, d: int)
    requires d > 0 && n <= 0
    ensures Round(n, d) <= 0
  {
    var q, r := (2 * n + d) / (2 * d), (2 * n + d) % (2 * d);
    assert 2 * n + d == q * (2 * d) + r;
    assert q > 0 ==> q * (2 * d) >= 2 * d;
  }

  lemma RoundSigns(n: int, d: int)
    requires d != 0
    ensures Round(-n, -d) == Round(n, d)
  {
  }

  /** No elapsed time counts as one second; shrunk counters, or a clock set back, give 0; both together
      are as good as neither. */
  lemma RateEdges(bytes: int, ms: int)
    ensures Rate(bytes, 0) == if bytes > 0 then bytes else 0
    ensures ms != 0 && (bytes <= 0 <= ms || ms <= 0 <= bytes) ==> Rate(bytes, ms) == 0
    ensures ms != 0 ==> Rate(-bytes, -ms) == Rate(bytes, ms)
  {
    assert Round(bytes * 1000, 1000) == bytes;
    if ms != 0 {
      RoundSigns(bytes * 1000, ms);
      if bytes <= 0 < ms {
        RoundNonPositive(bytes * 1000, ms);
      }
      if ms < 0 <= bytes {
        RoundNonPositive(-bytes * 1000, -ms);
      }
    }
  }

  lemma NearAdds(sum: int, exact: int, elapsed: int, sum': int, exact': int, elapsed': int)
    requires Near(sum, exact, elapsed) && Near(sum', exact', elapsed')
    ensures Near(sum + sum', exact + exact', elapsed + elapsed')
  {
  }

  /** What one more call adds, on top of a row of calls. */
  lemma OneMoreCall(b: Baseline, front: seq<Sample>, s: Sample)
    requires var before := AfterAll(b, front);
             s.Read? ==> before.rx <= s.rx && before.tx <= s.tx && before.at < s.now
    requires var before := AfterAll(b, front);
             b.at <= before.at && Near(WeightedRx(b, front), before.rx - b.rx, before.at - b.at) &&
             Near(WeightedTx(b, front), before.tx - b.tx, before.at - b.at)
    ensures var last := AfterAll(b, front + [s]);
            b.at <= last.at && Near(WeightedRx(b, front + [s]), last.rx - b.rx, last.at - b.at) &&
            Near(WeightedTx(b, front + [s]), last.tx - b.tx, last.at - b.at)
  {
    assert (front + [s])[..|front|] == front;
    if s.Read? {
      var before := AfterAll(b, front);
      var ms := s.now - before.at;
      RateError(s.rx - before.rx, ms);
      RateError(s.tx - before.tx, ms);
      NearAdds(WeightedRx(b, front), before.rx - b.rx, before.at - b.at,
               Rate(s.rx - before.rx, ms) * ms, s.rx - before.rx, ms);
      NearAdds(WeightedTx(b, front), before.tx - b.tx, before.at - b.at,
               Rate(s.tx - before.tx, ms) * ms, s.tx - before.tx, ms);
    }
  }

  lemma SteadyFront(b: Baseline, samples: seq<Sample>)
    requires samples != [] && Steady(b, samples)
    ensures Steady(b, samples[..|samples| - 1])
  {
    var n := |samples| - 1;
    assert forall i :: 0 <= i < n ==> samples[..n][..i] == samples[..i] && samples[..n][i] == samples[i];
  }

  /** The reported rates never drift: over any row of calls, failed ones included, rate times
      milliseconds adds up to 1000 times the true traffic give or take half the elapsed time. */
  lemma {:induction false} RatesTelescope(b: Baseline, samples: seq<Sample>)
    requires Steady(b, samples)
    ensures var last := AfterAll(b, samples);
            && b.at <= last.at
            && Near(WeightedRx(b, samples), last.rx - b.rx, last.at - b.at)
            && Near(WeightedTx(b, samples), last.tx - b.tx, last.at - b.at)
  {
    if samples != [] {
      var n := |samples| - 1;
      SteadyFront(b, samples);
      RatesTelescope(b, samples[..n]);
      OneMoreCall(b, samples[..n], samples[n]);
      assert samples == samples[..n] + [samples[n]];
    }
  }
}
