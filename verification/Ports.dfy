/** genValidPort and the ports of stored nodes: `port` for the API and `port + 1000` for the peers. */
module Ports {
  import opened Wrappers
  import opened Sets

  const DEFAULT_PORT: nat := 10005
  const PEER_OFFSET: nat := 1000
  const MAX_PORT: nat := 65535

  /** Trying ports upwards; asking for one above MAX_PORT throws instead of answering. */
  function FirstFree(taken: set<nat>, port: nat): Option<nat>
    decreases MAX_PORT + 1 - port
  {
    if port > MAX_PORT then None
    else if port in taken then FirstFree(taken, port + 1)
    else Some(port)
  }

  /** The least port from `port` on that is free; none only when every valid one is taken. */
  lemma {:induction false} FirstFreeIsLeast(taken: set<nat>, port: nat)
    requires port <= MAX_PORT + 1
    ensures match FirstFree(taken, port)
            case Some(p) => port <= p <= MAX_PORT && p !in taken && forall q :: port <= q < p ==> q in taken
            case None => forall q :: port <= q <= MAX_PORT ==> q in taken
    decreases MAX_PORT + 1 - port
  {
    if port <= MAX_PORT && port in taken {
      FirstFreeIsLeast(taken, port + 1);
    }
  }

  /** The loop of genValidPort: occupied ports fail to listen, stored ones are found in the database. */
  method GenValidPort(occupied: set<nat>, stored: set<nat>) returns (r: Option<nat>)
    ensures r == FirstFree(occupied + stored, DEFAULT_PORT)
  {
    var port := DEFAULT_PORT;
    while port <= MAX_PORT && (port in occupied || port in stored)
      invariant DEFAULT_PORT <= port <= MAX_PORT + 1
      invariant FirstFree(occupied + stored, port) == FirstFree(occupied + stored, DEFAULT_PORT)
    {
      port := port + 1;
    }
    r := if port <= MAX_PORT then Some(port) else None;
  }

  // ---------- the band below the peer ports ----------

  predicate InBand(port: nat) {
    DEFAULT_PORT <= port < DEFAULT_PORT + PEER_OFFSET
  }

  function TakenInBand(taken: set<nat>): set<nat> {
    set p | p in taken && InBand(p)
  }

  predicate BandHasRoom(taken: set<nat>) {
    |TakenInBand(taken)| < PEER_OFFSET
  }

  lemma {:induction false} RangeSize(lo: nat, hi: nat, range: set<nat>)
    requires lo <= hi
    requires forall p :: p in range <==> lo <= p < hi
    ensures |range| == hi - lo
    decreases hi
  {
    if lo < hi {
      RangeSize(lo, hi - 1, range - {hi - 1});
    } else {
      assert range == {};
    }
  }

  /** While fewer than 1000 ports of the band are taken, the next port comes from the band. */
  lemma NextPortInBand(taken: set<nat>)
    requires BandHasRoom(taken)
    ensures FirstFree(taken, DEFAULT_PORT).Some? && InBand(FirstFree(taken, DEFAULT_PORT).value)
  {
    FirstFreeIsLeast(taken, DEFAULT_PORT);
    var found := FirstFree(taken, DEFAULT_PORT);
    if found.None? || !InBand(found.value) {
      var band := set p: nat | DEFAULT_PORT <= p < DEFAULT_PORT + PEER_OFFSET && InBand(p);
      RangeSize(DEFAULT_PORT, DEFAULT_PORT + PEER_OFFSET, band);
      SubsetSize(band, TakenInBand(taken));
      assert false;
    }
  }

  /** The API ports and the peer ports of the nodes (id -> port) are pairwise distinct. */
  predicate Apart(ports: map<nat, nat>) {
    forall a, b :: a in ports && b in ports ==>
      (a != b ==> ports[a] != ports[b]) && ports[a] != ports[b] + PEER_OFFSET
  }

  predicate AllInBand(ports: map<nat, nat>) {
    forall a :: a in ports ==> InBand(ports[a])
  }

  lemma AddedApartIff(ports: map<nat, nat>, id: nat, p: nat)
    requires Apart(ports) && id !in ports && p >= DEFAULT_PORT && p !in ports.Values
    ensures Apart(ports[id := p]) <==> p - PEER_OFFSET !in ports.Values && p + PEER_OFFSET !in ports.Values
  {
    var ports' := ports[id := p];
    assert id in ports' && ports'[id] == p;
    if q: nat :| q in ports.Values && (q == p - PEER_OFFSET || q == p + PEER_OFFSET) {
      var b :| b in ports && ports[b] == q;
      assert b in ports' && ports'[b] == q;
      assert !Apart(ports');
    } else {
      assert forall a :: a in ports ==> ports[a] in ports.Values;
    }
  }

  /** Giving a fresh node the next free port keeps the ports apart exactly when that port is no stored
      node's peer port and has no stored node's API port for its own peer port. */
  lemma NextPortApartIff(ports: map<nat, nat>, occupied: set<nat>, id: nat)
    requires Apart(ports) && id !in ports
    requires FirstFree(occupied + ports.Values, DEFAULT_PORT).Some?
    ensures var p := FirstFree(occupied + ports.Values, DEFAULT_PORT).value;
            Apart(ports[id := p]) <==> p - PEER_OFFSET !in ports.Values && p + PEER_OFFSET !in ports.Values
  {
    FirstFreeIsLeast(occupied + ports.Values, DEFAULT_PORT);
    AddedApartIff(ports, id, FirstFree(occupied + ports.Values, DEFAULT_PORT).value);
  }

  /** Where the search ends up, told before it starts: in the band while there is room, and otherwise at
      the first free port past it. */
  lemma {:induction false} FirstFreePastBand(taken: set<nat>, port: nat)
    requires DEFAULT_PORT <= port <= DEFAULT_PORT + PEER_OFFSET
    requires forall q :: port <= q < DEFAULT_PORT + PEER_OFFSET ==> q in taken
    ensures FirstFree(taken, port) == FirstFree(taken, DEFAULT_PORT + PEER_OFFSET)
    decreases DEFAULT_PORT + PEER_OFFSET - port
  {
    if port < DEFAULT_PORT + PEER_OFFSET {
      FirstFreePastBand(taken, port + 1);
    }
  }

  lemma FullBand(taken: set<nat>)
    requires !BandHasRoom(taken)
    ensures forall q :: InBand(q) ==> q in taken
  {
    var band := set p: nat | DEFAULT_PORT <= p < DEFAULT_PORT + PEER_OFFSET && InBand(p);
    RangeSize(DEFAULT_PORT, DEFAULT_PORT + PEER_OFFSET, band);
    forall q | InBand(q) ensures q in taken {
      if q !in taken {
        SubsetSize(TakenInBand(taken), band - {q});
      }
    }
  }

  /** What can be checked before the call, while all stored ports are in the band: the next node is
      apart from the others iff the band has room, or the first free port past it has no stored port
      1000 below. */
  lemma NextPortApartBeforehand(ports: map<nat, nat>, occupied: set<nat>, id: nat)
    requires Apart(ports) && AllInBand(ports) && id !in ports
    requires FirstFree(occupied + ports.Values, DEFAULT_PORT).Some?
    ensures var taken := occupied + ports.Values; var past := FirstFree(taken, DEFAULT_PORT + PEER_OFFSET);
            Apart(ports[id := FirstFree(taken, DEFAULT_PORT).value]) <==>
            BandHasRoom(taken) || (past.Some? && past.value - PEER_OFFSET !in ports.Values)
  {
    var taken := occupied + ports.Values;
    NextPortApartIff(ports, occupied, id);
    assert forall a :: a in ports ==> InBand(ports[a]);
    assert forall q :: q in ports.Values ==> InBand(q);
    if BandHasRoom(taken) {
      NextPortInBand(taken);
    } else {
      FullBand(taken);
      FirstFreePastBand(taken, DEFAULT_PORT);
      FirstFreeIsLeast(taken, DEFAULT_PORT + PEER_OFFSET);
    }
  }

  /** The regime is needed: once the band is full the next port can be a stored node's peer port. */
  lemma FullBandClash(occupied: set<nat>, ports: map<nat, nat>, id: nat)
    requires Apart(ports) && AllInBand(ports) && id !in ports
    requires forall p :: InBand(p) ==> p in occupied + ports.Values
    requires DEFAULT_PORT in ports.Values && DEFAULT_PORT + PEER_OFFSET !in occupied
    ensures FirstFree(occupied + ports.Values, DEFAULT_PORT) == Some(DEFAULT_PORT + PEER_OFFSET)
    ensures !Apart(ports[id := DEFAULT_PORT + PEER_OFFSET])
  {
    FirstFreeIsLeast(occupied + ports.Values, DEFAULT_PORT);
    var p := DEFAULT_PORT + PEER_OFFSET;
    assert p !in ports.Values by {
      assert forall a :: a in ports ==> InBand(ports[a]);
      assert !InBand(p);
    }
    var found := FirstFree(occupied + ports.Values, DEFAULT_PORT);
    assert p !in occupied + ports.Values;
    assert found.Some? && found.value <= p;
    NextPortApartIff(ports, occupied, id);
  }

  // ---------- runs of creates and deletes ----------

  /** One node created while the given ports were occupied, or the nodes of a head deleted. */
  datatype Step = Create(id: nat, occupied: set<nat>) | Delete(ids: set<nat>)

  /** The node's id is not in use. */
  predicate FreshStep(ports: map<nat, nat>, step: Step) {
    step.Create? ==> step.id !in ports
  }

  /** Fewer than 1000 ports of the band are taken when a port is looked for. */
  predicate RoomyStep(ports: map<nat, nat>, step: Step) {
    step.Create? ==> BandHasRoom(step.occupied + ports.Values)
  }

  function Next(ports: map<nat, nat>, step: Step): map<nat, nat> {
    match step
    case Create(id, occupied) =>
      (match FirstFree(occupied + ports.Values, DEFAULT_PORT)
       case Some(p) => ports[id := p]
       case None => ports)
    case Delete(ids) => ports - ids
  }

  function RunOf(steps: seq<Step>): map<nat, nat> {
    if steps == [] then map[] else Next(RunOf(steps[..|steps| - 1]), steps[|steps| - 1])
  }

  predicate FreshIds(steps: seq<Step>) {
    forall i :: 0 <= i < |steps| ==> FreshStep(RunOf(steps[..i]), steps[i])
  }

  predicate RoomInBand(steps: seq<Step>) {
    forall i :: 0 <= i < |steps| ==> RoomyStep(RunOf(steps[..i]), steps[i])
  }

  lemma OneMoreFresh(steps: seq<Step>, step: Step)
    requires FreshIds(steps) && FreshStep(RunOf(steps), step)
    ensures FreshIds(steps + [step])
  {
    var steps' := steps + [step];
    assert steps'[..|steps|] == steps;
    assert forall i :: 0 <= i < |steps| ==> steps'[..i] == steps[..i];
  }

  lemma {:induction false} RunKeepsPortsApart(steps: seq<Step>)
    requires FreshIds(steps) && RoomInBand(steps)
    ensures Apart(RunOf(steps)) && AllInBand(RunOf(steps))
  {
    if steps != [] {
      var front, last := steps[..|steps| - 1], steps[|steps| - 1];
      assert forall i :: 0 <= i < |front| ==> front[..i] == steps[..i];
      RunKeepsPortsApart(front);
      var ports := RunOf(front);
      assert FreshStep(ports, last) && RoomyStep(ports, last);
      if last.Create? {
        NextPortInBand(last.occupied + ports.Values);
        NextPortApartBeforehand(ports, last.occupied, last.id);
      }
    }
  }
}
