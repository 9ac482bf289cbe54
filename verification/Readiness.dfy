/** checkNodeReady and waitForAllNodesReady: when a head counts as up. */
module Readiness {
  import opened Wrappers
  import Seqs

  const TIMEOUT_NODE_READY_MS: int := 300_000
  const POLL_INTERVAL_NODE_READY_MS: nat := 3_000
  const PER_NODE_CHECK_TIMEOUT_MS: nat := 15_000

  // ---------- one node ----------

  /** What can happen to the WebSocket of one check; a message carries its parsed tag, if any. */
  datatype SocketEvent =
    | Opened
    | Message(tag: Option<string>)
    | SocketError
    | SocketClosed
    | TimedOut
    | CouldNotConnect

  function Decision(e: SocketEvent): Option<bool> {
    match e
    case Opened => None
    case Message(tag) => if tag == Some("Greetings") then Some(true) else None
    case _ => Some(false)
  }

  /** The promise of one check: it settles at most once. */
  class ReadyCheck {
    var resolved: bool
    var value: bool
    var settled: nat     // how often the promise was resolved

    constructor ()
      ensures !resolved && settled == 0
    {
      resolved, value, settled := false, false, 0;
    }

    method ResolveOnce(answer: bool)
      modifies this
      ensures resolved
      ensures old(resolved) ==> value == old(value) && settled == old(settled)
      ensures !old(resolved) ==> value == answer && settled == old(settled) + 1
    {
      if !resolved {
        resolved := true;
        value := answer;
        settled := settled + 1;
      }
    }

    method Handle(e: SocketEvent)
      modifies this
      ensures Decision(e).None? ==> resolved == old(resolved) && value == old(value) && settled == old(settled)
      ensures Decision(e).Some? ==> resolved
      ensures Decision(e).Some? && old(resolved) ==> value == old(value) && settled == old(settled)
      ensures Decision(e).Some? && !old(resolved) ==> value == Decision(e).value && settled == old(settled) + 1
    {
      match e
      case Opened =>
      case Message(tag) => if tag == Some("Greetings") { ResolveOnce(true); }
      case _ => ResolveOnce(false);
    }
  }

  predicate Decisive(events: seq<SocketEvent>, i: nat) {
    i < |events| && Decision(events[i]).Some?
  }

  predicate FirstDecisive(events: seq<SocketEvent>, i: nat) {
    Decisive(events, i) && forall j :: 0 <= j < i ==> !Decisive(events, j)
  }

  /** The node greets. */
  predicate Greets(e: SocketEvent) {
    e == Message(Some("Greetings"))
  }

  /** The check is over without a greeting. */
  predicate Breaks(e: SocketEvent) {
    e in {SocketError, SocketClosed, TimedOut, CouldNotConnect}
  }

  /** Neither greeting nor break among the first n events. */
  predicate OpenUntil(events: seq<SocketEvent>, n: nat)
    requires n <= |events|
  {
    forall j :: 0 <= j < n ==> !Greets(events[j]) && !Breaks(events[j])
  }

  lemma DecisionMeans(e: SocketEvent)
    ensures Decision(e) == Some(true) <==> Greets(e)
    ensures Decision(e) == Some(false) <==> Breaks(e)
  {
  }

  lemma DecisiveMeans(events: seq<SocketEvent>, i: nat)
    requires i < |events|
    ensures FirstDecisive(events, i) <==> OpenUntil(events, i) && (Greets(events[i]) || Breaks(events[i]))
  {
    forall j | 0 <= j <= i ensures Decisive(events, j) <==> Greets(events[j]) || Breaks(events[j]) {
      DecisionMeans(events[j]);
    }
  }

  /** The check resolves exactly once, to the first decisive event: to true by a greeting before anything
      broke, to false by a break before any greeting; with neither it stays open. */
  method CheckNodeReady(events: seq<SocketEvent>) returns (answer: Option<bool>, settled: nat)
    ensures answer == Some(true) <==> exists i :: 0 <= i < |events| && OpenUntil(events, i) && Greets(events[i])
    ensures answer == Some(false) <==> exists i :: 0 <= i < |events| && OpenUntil(events, i) && Breaks(events[i])
    ensures answer.None? <==> OpenUntil(events, |events|)
    ensures answer.None? <==> forall i :: 0 <= i < |events| ==> !Decisive(events, i)
    ensures answer.None? ==> settled == 0
    ensures answer.Some? ==>
      settled == 1 && exists i :: 0 <= i < |events| && FirstDecisive(events, i) && Decision(events[i]) == answer
  {
    var check := new ReadyCheck();
    for i := 0 to |events|
      invariant check.resolved <==> check.settled == 1
      invariant check.settled <= 1
      invariant !check.resolved ==> forall j :: 0 <= j < i ==> !Decisive(events, j)
      invariant check.resolved ==>
        exists j :: 0 <= j < i && FirstDecisive(events, j) && Decision(events[j]) == Some(check.value)
    {
      assert Decisive(events, i) <==> Decision(events[i]).Some?;
      assert !check.resolved && Decisive(events, i) ==> FirstDecisive(events, i);
      check.Handle(events[i]);
    }
    answer := if check.resolved then Some(check.value) else None;
    settled := check.settled;
    forall i | 0 <= i < |events|
      ensures Decision(events[i]) == Some(true) <==> Greets(events[i])
      ensures Decision(events[i]) == Some(false) <==> Breaks(events[i])
      ensures FirstDecisive(events, i) <==> OpenUntil(events, i) && (Greets(events[i]) || Breaks(events[i]))
      ensures Decisive(events, i) <==> Greets(events[i]) || Breaks(events[i])
    {
      DecisionMeans(events[i]);
      DecisiveMeans(events, i);
    }
  }

  // ---------- all nodes of a head ----------

  datatype Node = Node(id: nat, port: nat)

  /** The answers of the nodes by round and node id, and how long each round of checks took. */
  datatype Answers = Answers(ready: (nat, nat) -> bool, took: nat -> nat)

  /** A check never outlasts its own timeout, so neither does a round of parallel checks. */
  ghost predicate Timely(answers: Answers) {
    forall round :: answers.took(round) <= PER_NODE_CHECK_TIMEOUT_MS
  }

  predicate AnsweredBefore(answers: Answers, rounds: nat, id: nat) {
    exists round :: 0 <= round < rounds && answers.ready(round, id)
  }

  /** Milliseconds gone after that many unsuccessful rounds, each followed by the retry interval. */
  function Elapsed(answers: Answers, rounds: nat, retryIntervalMs: nat): nat {
    if rounds == 0 then 0 else
    Elapsed(answers, rounds - 1, retryIntervalMs) + answers.took(rounds - 1) + retryIntervalMs
  }

  /** How long each of the first rounds took. */
  function Durations(answers: Answers, rounds: nat): seq<nat> {
    seq<nat>(rounds, i requires 0 <= i < rounds => answers.took(i))
  }

  /** The rounds' own time and one interval after each. */
  lemma {:induction false} ElapsedSum(answers: Answers, rounds: nat, retryIntervalMs: nat)
    ensures Elapsed(answers, rounds, retryIntervalMs) ==
            Seqs.Sum(Durations(answers, rounds)) + rounds * retryIntervalMs
  {
    if rounds > 0 {
      ElapsedSum(answers, rounds - 1, retryIntervalMs);
      assert Durations(answers, rounds)[..rounds - 1] == Durations(answers, rounds - 1);
      assert (rounds - 1) * retryIntervalMs + retryIntervalMs == rounds * retryIntervalMs;
    }
  }

  function UnreadyPorts(answers: Answers, rounds: nat, nodes: seq<Node>): seq<nat> {
    if nodes == [] then [] else
    var n := |nodes| - 1;
    UnreadyPorts(answers, rounds, nodes[..n]) +
    if AnsweredBefore(answers, rounds, nodes[n].id) then [] else [nodes[n].port]
  }

  lemma {:induction false} UnreadyPortsExact(answers: Answers, rounds: nat, nodes: seq<Node>, port: nat)
    ensures port in UnreadyPorts(answers, rounds, nodes) <==>
            exists n :: n in nodes && n.port == port && !AnsweredBefore(answers, rounds, n.id)
  {
    if nodes != [] {
      UnreadyPortsExact(answers, rounds, nodes[..|nodes| - 1], port);
      assert nodes == nodes[..|nodes| - 1] + [nodes[|nodes| - 1]];
    }
  }

  /** nodeStatuses marks exactly the nodes that answered in an earlier round. */
  predicate Tracks(nodeStatuses: map<nat, bool>, nodes: seq<Node>, answers: Answers, rounds: nat) {
    forall n :: n in nodes ==> n.id in nodeStatuses && nodeStatuses[n.id] == AnsweredBefore(answers, rounds, n.id)
  }

  predicate AllReady(nodeStatuses: map<nat, bool>, nodes: seq<Node>) {
    forall n :: n in nodes ==> n.id in nodeStatuses && nodeStatuses[n.id]
  }

  method NoneReady(nodes: seq<Node>, answers: Answers) returns (nodeStatuses: map<nat, bool>)
    ensures Tracks(nodeStatuses, nodes, answers, 0)
  {
    nodeStatuses := map[];
    for i := 0 to |nodes|
      invariant forall j :: 0 <= j < i ==> nodes[j].id in nodeStatuses
      invariant forall id :: id in nodeStatuses ==> !nodeStatuses[id]
    {
      nodeStatuses := nodeStatuses[nodes[i].id := false];
    }
  }

  lemma AnsweredStep(answers: Answers, rounds: nat, id: nat)
    ensures AnsweredBefore(answers, rounds + 1, id) <==>
            AnsweredBefore(answers, rounds, id) || answers.ready(rounds, id)
  {
    if answers.ready(rounds, id) {
      assert 0 <= rounds < rounds + 1 && answers.ready(rounds, id);
    }
    if AnsweredBefore(answers, rounds, id) {
      var r :| 0 <= r < rounds && answers.ready(r, id);
      assert 0 <= r < rounds + 1 && answers.ready(r, id);
    }
  }

  /** One round: all pending nodes are asked in parallel, the others are left alone. */
  method CheckPending(nodeStatuses: map<nat, bool>, nodes: seq<Node>, round: nat, answers: Answers)
    returns (updated: map<nat, bool>)
    requires Tracks(nodeStatuses, nodes, answers, round)
    ensures Tracks(updated, nodes, answers, round + 1)
  {
    updated := nodeStatuses;
    for i := 0 to |nodes|
      invariant updated.Keys == nodeStatuses.Keys
      invariant forall id :: id in updated ==> updated[id] ==> nodeStatuses[id] || answers.ready(round, id)
      invariant forall id :: id in updated ==> nodeStatuses[id] ==> updated[id]
      invariant forall j :: 0 <= j < i && answers.ready(round, nodes[j].id) ==> updated[nodes[j].id]
    {
      var id := nodes[i].id;
      if !nodeStatuses[id] && answers.ready(round, id) {
        updated := updated[id := true];
      }
    }
    forall n | n in nodes ensures updated[n.id] == AnsweredBefore(answers, round + 1, n.id) {
      AnsweredStep(answers, round, n.id);
    }
  }

  method NotReadyPorts(nodeStatuses: map<nat, bool>, nodes: seq<Node>, rounds: nat, answers: Answers)
    returns (ports: seq<nat>)
    requires Tracks(nodeStatuses, nodes, answers, rounds)
    ensures ports == UnreadyPorts(answers, rounds, nodes)
  {
    ports := [];
    for i := 0 to |nodes|
      invariant ports == UnreadyPorts(answers, rounds, nodes[..i])
    {
      if !nodeStatuses[nodes[i].id] {
        ports := ports + [nodes[i].port];
      }
      assert nodes[..i + 1][..i] == nodes[..i];
    }
    assert nodes[..|nodes|] == nodes;
  }

  predicate AllAnswered(nodes: seq<Node>, answers: Answers, rounds: nat) {
    forall n :: n in nodes ==> AnsweredBefore(answers, rounds, n.id)
  }

  /** Readiness is monotone: an answer counts in every later round. */
  lemma ReadinessMonotone(answers: Answers, r: nat, rounds: nat, id: nat)
    requires r <= rounds && AnsweredBefore(answers, r, id)
    ensures AnsweredBefore(answers, rounds, id)
  {
    var k :| 0 <= k < r && answers.ready(k, id);
    assert 0 <= k < rounds && answers.ready(k, id);
  }

  lemma AllAnsweredLater(nodes: seq<Node>, answers: Answers, r: nat, rounds: nat)
    requires r <= rounds && AllAnswered(nodes, answers, r)
    ensures AllAnswered(nodes, answers, rounds)
  {
    forall n | n in nodes ensures AnsweredBefore(answers, rounds, n.id) {
      ReadinessMonotone(answers, r, rounds, n.id);
    }
  }

  /** That many rounds are run if need be: the last of them starts in time. */
  predicate Reached(answers: Answers, rounds: nat, timeoutMs: int, retryIntervalMs: nat) {
    timeoutMs > 0 && (rounds > 0 ==> Elapsed(answers, rounds - 1, retryIntervalMs) < timeoutMs)
  }

  /** Every node has answered by the end of some round that starts before the time is up. */
  ghost predicate InTime(nodes: seq<Node>, timeoutMs: int, retryIntervalMs: nat, answers: Answers) {
    exists rounds: nat :: AllAnswered(nodes, answers, rounds) && Reached(answers, rounds, timeoutMs, retryIntervalMs)
  }

  /** The wait of activation and restart, with the service's own timeout and interval, goes through. */
  ghost predicate ReadyInTime(nodes: seq<Node>, answers: Answers) {
    InTime(nodes, TIMEOUT_NODE_READY_MS, POLL_INTERVAL_NODE_READY_MS, answers)
  }

  /** The clock moves on: some number of rounds uses up the time. */
  ghost predicate RunsOut(timeoutMs: int, retryIntervalMs: nat, answers: Answers) {
    exists rounds: nat :: Elapsed(answers, rounds, retryIntervalMs) >= timeoutMs
  }

  lemma {:induction false} ElapsedAtLeast(answers: Answers, rounds: nat, retryIntervalMs: nat)
    requires retryIntervalMs > 0
    ensures Elapsed(answers, rounds, retryIntervalMs) >= rounds
  {
    if rounds > 0 {
      ElapsedAtLeast(answers, rounds - 1, retryIntervalMs);
    }
  }

  /** It does so for any positive interval, however little time the checks take. */
  lemma IntervalRunsOut(timeoutMs: int, retryIntervalMs: nat, answers: Answers)
    requires retryIntervalMs > 0
    ensures RunsOut(timeoutMs, retryIntervalMs, answers)
  {
    var rounds := if timeoutMs > 0 then timeoutMs else 0;
    ElapsedAtLeast(answers, rounds, retryIntervalMs);
    assert Elapsed(answers, rounds, retryIntervalMs) >= timeoutMs;
  }

  /** How many rounds the wait can take at most. */
  ghost predicate RoundBound(nodes: seq<Node>, timeoutMs: int, retryIntervalMs: nat, answers: Answers, bound: nat) {
    AllAnswered(nodes, answers, bound) || Elapsed(answers, bound, retryIntervalMs) >= timeoutMs
  }

  lemma HasRoundBound(nodes: seq<Node>, timeoutMs: int, retryIntervalMs: nat, answers: Answers) returns (bound: nat)
    requires InTime(nodes, timeoutMs, retryIntervalMs, answers) || RunsOut(timeoutMs, retryIntervalMs, answers)
    ensures RoundBound(nodes, timeoutMs, retryIntervalMs, answers, bound)
  {
    if InTime(nodes, timeoutMs, retryIntervalMs, answers) {
      bound :| AllAnswered(nodes, answers, bound);
    } else {
      bound :| Elapsed(answers, bound, retryIntervalMs) >= timeoutMs;
    }
  }

  lemma {:induction false} ElapsedMonotone(answers: Answers, r: nat, rounds: nat, retryIntervalMs: nat)
    requires r <= rounds
    ensures Elapsed(answers, r, retryIntervalMs) <= Elapsed(answers, rounds, retryIntervalMs)
  {
    if r < rounds {
      ElapsedMonotone(answers, r, rounds - 1, retryIntervalMs);
    }
  }

  lemma BelowBound(nodes: seq<Node>, timeoutMs: int, retryIntervalMs: nat, answers: Answers, bound: nat, rounds: nat)
    requires RoundBound(nodes, timeoutMs, retryIntervalMs, answers, bound)
    requires Elapsed(answers, rounds, retryIntervalMs) < timeoutMs && !AllAnswered(nodes, answers, rounds)
    ensures rounds < bound
  {
    if bound <= rounds {
      if AllAnswered(nodes, answers, bound) {
        AllAnsweredLater(nodes, answers, bound, rounds);
      } else {
        ElapsedMonotone(answers, bound, rounds, retryIntervalMs);
      }
    }
  }

  /** A wait that ran out of time could not have been saved by a later round. */
  lemma NotInTime(nodes: seq<Node>, timeoutMs: int, retryIntervalMs: nat, answers: Answers, rounds: nat)
    requires Elapsed(answers, rounds, retryIntervalMs) >= timeoutMs
    requires timeoutMs > 0 ==> !AllAnswered(nodes, answers, rounds)
    ensures !InTime(nodes, timeoutMs, retryIntervalMs, answers)
  {
    forall r: nat | AllAnswered(nodes, answers, r) ensures !Reached(answers, r, timeoutMs, retryIntervalMs) {
      if timeoutMs > 0 {
        if r <= rounds {
          AllAnsweredLater(nodes, answers, r, rounds);
        } else {
          ElapsedMonotone(answers, rounds, r - 1, retryIntervalMs);
        }
      }
    }
  }

  /** The polling loop. It returns normally, after `rounds` rounds, iff every node answers in a round
      that starts in time; otherwise it throws once the time is up, naming exactly the ports that never
      answered. */
  method WaitForAllNodesReady(nodes: seq<Node>, timeoutMs: int, retryIntervalMs: nat, answers: Answers)
    returns (unready: Option<seq<nat>>, rounds: nat, elapsedMs: nat)
    requires InTime(nodes, timeoutMs, retryIntervalMs, answers) || RunsOut(timeoutMs, retryIntervalMs, answers)
    ensures unready.None? <==> InTime(nodes, timeoutMs, retryIntervalMs, answers)
    ensures timeoutMs <= 0 ==> rounds == 0
    ensures timeoutMs > 0 ==> (unready.None? <==> AllAnswered(nodes, answers, rounds))
    ensures unready.Some? ==> unready.value == UnreadyPorts(answers, rounds, nodes)
    ensures forall r :: 0 <= r < rounds ==> Elapsed(answers, r, retryIntervalMs) < timeoutMs
    ensures forall r :: 0 < r < rounds ==> !AllAnswered(nodes, answers, r)
    ensures unready.Some? ==> elapsedMs == Elapsed(answers, rounds, retryIntervalMs) && elapsedMs >= timeoutMs
    ensures unready.None? ==>
      elapsedMs == if rounds == 0 then 0 else Elapsed(answers, rounds - 1, retryIntervalMs) + answers.took(rounds - 1)
    ensures Timely(answers) && timeoutMs > 0 ==>
              elapsedMs < timeoutMs + PER_NODE_CHECK_TIMEOUT_MS + retryIntervalMs
  {
    var nodeStatuses := NoneReady(nodes, answers);
    rounds, elapsedMs := 0, 0;
    ghost var bound := HasRoundBound(nodes, timeoutMs, retryIntervalMs, answers);
    while elapsedMs < timeoutMs
      invariant Tracks(nodeStatuses, nodes, answers, rounds)
      invariant elapsedMs == Elapsed(answers, rounds, retryIntervalMs)
      invariant forall r :: 0 <= r < rounds ==> Elapsed(answers, r, retryIntervalMs) < timeoutMs
      invariant forall r :: 0 < r <= rounds ==> !AllAnswered(nodes, answers, r)
      invariant rounds == 0 ==> elapsedMs == 0
      invariant rounds > 0 ==> timeoutMs > 0
      invariant Timely(answers) && timeoutMs > 0 ==>
                  elapsedMs < timeoutMs + PER_NODE_CHECK_TIMEOUT_MS + retryIntervalMs
      decreases bound - rounds
    {
      if AllReady(nodeStatuses, nodes) {
        assert Reached(answers, rounds, timeoutMs, retryIntervalMs);
        return None, rounds, elapsedMs;
      }
      BelowBound(nodes, timeoutMs, retryIntervalMs, answers, bound, rounds);
      nodeStatuses := CheckPending(nodeStatuses, nodes, rounds, answers);
      rounds := rounds + 1;
      if AllReady(nodeStatuses, nodes) {
        assert Reached(answers, rounds, timeoutMs, retryIntervalMs);
        return None, rounds, elapsedMs + answers.took(rounds - 1);
      }
      elapsedMs := elapsedMs + answers.took(rounds - 1) + retryIntervalMs;
    }
    NotInTime(nodes, timeoutMs, retryIntervalMs, answers, rounds);
    var ports := NotReadyPorts(nodeStatuses, nodes, rounds, answers);
    unready := Some(ports);
  }
}
