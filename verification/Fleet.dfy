/** The node limit over whole runs: one activation or restart at a time, interleaved step by step with
    cache refreshes, crashes and removals. */
module Fleet {
  import opened Wrappers
  import opened Sets
  import opened Names
  import Seqs
  import opened Docker
  import opened HeadRows
  import opened Readiness

  /** Where the one activation or restart under way stands. `admitted` remembers the node ids cached
      when an activation was let through; `current` is the cache as cacheActiveNodes read it. */
  datatype Flight =
    | Grounded
    | Starting(headId: nat, nodes: seq<Node>, admitted: set<nat>, created: set<nat>)
    | Caching(headId: nat, nodes: seq<Node>, admitted: set<nat>, created: set<nat>, current: seq<Entry>)
    | Waiting(headId: nat, nodes: seq<Node>, admitted: set<nat>, created: set<nat>)
    | RollingBack(headId: nat, nodes: seq<Node>, admitted: set<nat>, created: set<nat>, cached: bool)
    | Restarting(headId: nat, nodes: seq<Node>)
    | RestartCaching(headId: nat, nodes: seq<Node>, current: seq<Entry>)

  datatype State = State(containers: Containers, cache: seq<Entry>, refreshes: seq<seq<Entry>>, flight: Flight)

  datatype Event =
    // anyone, at any time: crashes, deactivations, deletions, cleanups
    | Stopped(name: string)
    | Removed(name: string)
    // the cache
    | RefreshListed(listing: seq<Listed>)
    | RefreshListFailed
    | RefreshWritten(i: nat)
    | CacheExpired
    // activation
    | Admitted(headId: nat, nodes: seq<Node>)
    | Created(nodeId: nat, containerId: nat)
    | Started(nodeId: nat)
    | CacheRead
    | CacheWritten
    | AllReady
    | Failed
    | RolledBack
    // restart
    | RestartBegun(headId: nat, nodes: seq<Node>)
    | Revived(nodeId: nat)
    | RestartEnded

  predicate Activating(f: Flight) {
    f.Starting? || f.Caching? || f.Waiting? || f.RollingBack?
  }

  /** What the code and Docker can do. */
  ghost predicate Possible(s: State, e: Event, limit: int) {
    match e
    case Stopped(name) => name in s.containers
    case Removed(name) => name in s.containers && !s.containers[name].running
    case RefreshListed(listing) => IsListing(listing, s.containers)
    case RefreshListFailed => true
    case RefreshWritten(i) => i < |s.refreshes|
    case CacheExpired => true
    case Admitted(_, nodes) => s.flight.Grounded? && DistinctIds(nodes) && Admission(nodes, s.cache, limit).None?
    case Created(nodeId, _) =>
      s.flight.Starting? && nodeId in IdsOf(s.flight.nodes) && NodeName(nodeId) !in s.containers
    case Started(nodeId) => s.flight.Starting? && nodeId in IdsOf(s.flight.nodes) && NodeName(nodeId) in s.containers
    case CacheRead => (s.flight.Starting? && s.flight.created == IdsOf(s.flight.nodes)) || s.flight.Restarting?
    case CacheWritten => s.flight.Caching? || s.flight.RestartCaching?
    case AllReady => s.flight.Waiting?
    case Failed => s.flight.Starting? || s.flight.Caching? || s.flight.Waiting?
    case RolledBack => s.flight.RollingBack?
    case RestartBegun(_, nodes) => s.flight.Grounded? && DistinctIds(nodes) && AllCached(nodes, s.cache)
    case Revived(nodeId) => s.flight.Restarting? && nodeId in IdsOf(s.flight.nodes) && NodeName(nodeId) in s.containers
    case RestartEnded => s.flight.Restarting? || s.flight.RestartCaching?
  }

  /** A restart finds the container stopped and brings it up. */
  predicate Revives(s: State, e: Event) {
    e.Revived? && NodeName(e.nodeId) in s.containers && !s.containers[NodeName(e.nodeId)].running
  }

  /** What the limit rests on: listings succeed, the cache does not expire, no refresh has listed
      without having written when a container starts, and a rollback gets rid of what it had started. */
  predicate Regular(s: State, e: Event) {
    match e
    case RefreshListFailed => false
    case CacheExpired => false
    case Started(_) => s.refreshes == []
    case RolledBack => s.flight.RollingBack? && forall id :: id in s.flight.created ==> NodeName(id) !in s.containers
    case _ => true
  }

  predicate InRestart(f: Flight) {
    f.Restarting? || f.RestartCaching?
  }

  /** No refresh is pending when another one lists or an activation or a restart begins. */
  predicate Quiet(s: State, e: Event) {
    e.RefreshListed? || e.Admitted? || e.RestartBegun? ==> s.refreshes == []
  }

  /** Refreshes are kept apart from each other, from the beginnings of activations and from restarts. */
  predicate Orderly(s: State, e: Event) {
    Quiet(s, e) && (e.RefreshListed? ==> !InRestart(s.flight))
  }

  /** What a step that revives a container needs for the limit. */
  predicate Backed(s: State, e: Event, limit: int) {
    Revives(s, e) ==> s.refreshes == [] && e.nodeId in NodeIds(s.cache) && |s.cache| <= limit
  }

  function NodeEntries(headId: nat, nodes: seq<Node>): seq<Entry> {
    seq(|nodes|, i requires 0 <= i < |nodes| => Entry(nodes[i].id, headId, true))
  }

  ghost function Next(s: State, e: Event, limit: int): State
    requires Possible(s, e, limit)
  {
    match e
    case Stopped(name) => s.(containers := SetRunning(s.containers, name, false))
    case Removed(name) => s.(containers := s.containers - {name})
    case RefreshListed(listing) => s.(refreshes := s.refreshes + [ActiveNodes(listing)])
    case RefreshListFailed => s.(refreshes := s.refreshes + [[]])
    case RefreshWritten(i) => s.(cache := s.refreshes[i], refreshes := s.refreshes[..i] + s.refreshes[i + 1..])
    case CacheExpired => s.(cache := [])
    case Admitted(headId, nodes) => s.(flight := Starting(headId, nodes, NodeIds(s.cache), {}))
    case Created(nodeId, containerId) =>
      s.(containers := s.containers[NodeName(nodeId) := Container(containerId, false, s.flight.headId, nodeId)])
    case Started(nodeId) =>
      var f := s.flight;
      s.(containers := SetRunning(s.containers, NodeName(nodeId), true),
         flight := Starting(f.headId, f.nodes, f.admitted, f.created + {nodeId}))
    case CacheRead =>
      var f := s.flight;
      s.(flight := if f.Starting? then Caching(f.headId, f.nodes, f.admitted, f.created, s.cache)
                   else RestartCaching(f.headId, f.nodes, s.cache))
    case CacheWritten =>
      var f := s.flight;
      s.(cache := Merge(f.current, NodeEntries(f.headId, f.nodes)),
         flight := if f.Caching? then Waiting(f.headId, f.nodes, f.admitted, f.created)
                   else Restarting(f.headId, f.nodes))
    case AllReady => s.(flight := Grounded)
    case Failed =>
      var f := s.flight;
      s.(flight := RollingBack(f.headId, f.nodes, f.admitted, f.created, f.Waiting?))
    case RolledBack => s.(flight := Grounded)
    case RestartBegun(headId, nodes) => s.(flight := Restarting(headId, nodes))
    case Revived(nodeId) => s.(containers := SetRunning(s.containers, NodeName(nodeId), true))
    case RestartEnded => s.(flight := Grounded)
  }

  const START: State := State(map[], [], [], Grounded)

  ghost predicate StepAt(states: seq<State>, events: seq<Event>, limit: int, i: nat)
    requires i < |events| < |states|
  {
    Possible(states[i], events[i], limit) && states[i + 1] == Next(states[i], events[i], limit)
  }

  ghost predicate Run(states: seq<State>, events: seq<Event>, limit: int) {
    && |states| == |events| + 1
    && states[0] == START
    && forall i: nat :: i < |events| ==> StepAt(states, events, limit, i)
  }

  ghost predicate RegularRun(states: seq<State>, events: seq<Event>)
    requires |events| < |states|
  {
    forall k: nat :: k < |events| ==> Regular(states[k], events[k])
  }

  ghost predicate OrderlyRun(states: seq<State>, events: seq<Event>)
    requires |events| < |states|
  {
    forall k: nat :: k < |events| ==> Orderly(states[k], events[k])
  }

  ghost predicate RevivesNothing(states: seq<State>, events: seq<Event>)
    requires |events| < |states|
  {
    forall k: nat :: k < |events| ==> !Revives(states[k], events[k])
  }

  // ---------- the invariant ----------

  /** Running nodes the cache need not list yet: those an activation has started and not cached. */
  function Uncached(f: Flight): set<nat> {
    match f
    case Starting(_, _, _, created) => created
    case Caching(_, _, _, created, _) => created
    case RollingBack(_, _, _, created, cached) => if cached then {} else created
    case _ => {}
  }

  ghost predicate Covered(s: State) {
    && RunningIds(s.containers) <= NodeIds(s.cache) + Uncached(s.flight)
    && (forall i :: 0 <= i < |s.refreshes| ==> RunningIds(s.containers) <= NodeIds(s.refreshes[i]))
    && (s.flight.Caching? ==> RunningIds(s.containers) <= NodeIds(s.flight.current) + s.flight.created)
    && (s.flight.RestartCaching? ==> RunningIds(s.containers) <= NodeIds(s.flight.current))
  }

  ghost predicate Distinct(s: State) {
    && DistinctNodes(s.cache)
    && (forall i :: 0 <= i < |s.refreshes| ==> DistinctNodes(s.refreshes[i]))
    && (s.flight.Caching? || s.flight.RestartCaching? ==> DistinctNodes(s.flight.current))
    && (!s.flight.Grounded? ==> DistinctIds(s.flight.nodes))
  }

  /** While an activation is under way, what runs was admitted or belongs to its head. */
  ghost predicate Admissible(s: State, limit: int) {
    if Activating(s.flight) then
      s.flight.created <= IdsOf(s.flight.nodes) &&
      RunningIds(s.containers) <= s.flight.admitted + IdsOf(s.flight.nodes) &&
      |s.flight.admitted| + |s.flight.nodes| <= limit
    else WithinLimit(s.containers, limit)
  }

  ghost predicate Inv(s: State, limit: int) {
    Labelled(s.containers) && Covered(s) && Distinct(s) && Admissible(s, limit)
  }

  // ---------- how steps move the running nodes ----------

  lemma FewerRun(cs: Containers, cs': Containers)
    requires forall name :: name in cs' ==>
               name in cs && cs'[name].nodeLabel == cs[name].nodeLabel && (cs'[name].running ==> cs[name].running)
    requires Labelled(cs)
    ensures Labelled(cs') && RunningIds(cs') <= RunningIds(cs)
  {
  }

  lemma OneMoreRuns(cs: Containers, nodeId: nat)
    requires Labelled(cs) && NodeName(nodeId) in cs
    ensures var cs' := SetRunning(cs, NodeName(nodeId), true);
            Labelled(cs') && RunningIds(cs') <= RunningIds(cs) + {nodeId} &&
            (cs[NodeName(nodeId)].running ==> RunningIds(cs') <= RunningIds(cs))
  {
    NodeNameMatches(nodeId);
    NodeNameInjective(nodeId, cs[NodeName(nodeId)].nodeLabel);
  }

  lemma SameRun(cs: Containers, nodeId: nat, c: Container)
    requires Labelled(cs) && NodeName(nodeId) !in cs && !c.running && c.nodeLabel == nodeId
    ensures var cs' := cs[NodeName(nodeId) := c]; Labelled(cs') && RunningIds(cs') <= RunningIds(cs)
  {
  }

  lemma NodeEntriesFacts(headId: nat, nodes: seq<Node>)
    requires DistinctIds(nodes)
    ensures DistinctNodes(NodeEntries(headId, nodes)) && NodeIds(NodeEntries(headId, nodes)) == IdsOf(nodes)
  {
    var entries := NodeEntries(headId, nodes);
    forall id | id in IdsOf(nodes) ensures id in NodeIds(entries) {
      var i :| 0 <= i < |nodes| && nodes[i].id == id;
      assert entries[i] in entries;
    }
  }

  lemma AdmissibleWithinLimit(s: State, limit: int)
    requires Admissible(s, limit)
    ensures WithinLimit(s.containers, limit)
  {
    if Activating(s.flight) {
      SubsetSize(RunningIds(s.containers), s.flight.admitted + IdsOf(s.flight.nodes));
      IdCount(s.flight.nodes);
    }
  }

  // ---------- every step keeps the invariant ----------

  /** Stopping and removing containers, from whichever operation. */
  lemma ShrinkKeepsInv(s: State, s': State, limit: int)
    requires Inv(s, limit)
    requires s' == s.(containers := s'.containers)
    requires Labelled(s'.containers) && RunningIds(s'.containers) <= RunningIds(s.containers)
    ensures Inv(s', limit)
  {
    if !Activating(s.flight) {
      SubsetSize(RunningIds(s'.containers), RunningIds(s.containers));
    }
  }

  lemma ListedKeepsInv(s: State, e: Event, limit: int)
    requires Inv(s, limit) && Possible(s, e, limit) && e.RefreshListed?
    ensures Inv(Next(s, e, limit), limit)
  {
    ActiveNodesOfListing(e.listing, s.containers);
    var s' := Next(s, e, limit);
    var n := |s.refreshes|;
    forall j | 0 <= j < |s'.refreshes|
      ensures RunningIds(s.containers) <= NodeIds(s'.refreshes[j]) && DistinctNodes(s'.refreshes[j])
    {
      assert s'.refreshes[j] == if j < n then s.refreshes[j] else ActiveNodes(e.listing);
    }
  }

  lemma WrittenKeepsInv(s: State, e: Event, limit: int)
    requires Inv(s, limit) && Possible(s, e, limit) && e.RefreshWritten?
    ensures Inv(Next(s, e, limit), limit)
  {
    var s' := Next(s, e, limit);
    forall j | 0 <= j < |s'.refreshes|
      ensures RunningIds(s.containers) <= NodeIds(s'.refreshes[j]) && DistinctNodes(s'.refreshes[j])
    {
      assert s'.refreshes[j] == s.refreshes[if j < e.i then j else j + 1];
    }
  }

  lemma AdmittedKeepsInv(s: State, e: Event, limit: int)
    requires Inv(s, limit) && Possible(s, e, limit) && e.Admitted?
    ensures Inv(Next(s, e, limit), limit)
  {
    DistinctCount(s.cache);
  }

  lemma StartedKeepsInv(s: State, e: Event, limit: int)
    requires Inv(s, limit) && Possible(s, e, limit) && Regular(s, e) && e.Started?
    ensures Inv(Next(s, e, limit), limit)
  {
    OneMoreRuns(s.containers, e.nodeId);
  }

  lemma CacheWrittenKeepsInv(s: State, e: Event, limit: int)
    requires Inv(s, limit) && Possible(s, e, limit) && e.CacheWritten?
    ensures Inv(Next(s, e, limit), limit)
  {
    NodeEntriesFacts(s.flight.headId, s.flight.nodes);
    MergeFacts(s.flight.current, NodeEntries(s.flight.headId, s.flight.nodes));
  }

  lemma LandingKeepsInv(s: State, e: Event, limit: int)
    requires Inv(s, limit) && Possible(s, e, limit) && Regular(s, e)
    requires e.AllReady? || e.RolledBack? || e.RestartEnded?
    ensures Inv(Next(s, e, limit), limit)
  {
    AdmissibleWithinLimit(s, limit);
    if e.RolledBack? {
      assert forall name :: name in s.containers && MatchesNodePattern(name) ==>
               s.containers[name].nodeLabel !in s.flight.created;
    }
  }

  lemma RevivedKeepsInv(s: State, e: Event, limit: int)
    requires Inv(s, limit) && Possible(s, e, limit) && Regular(s, e) && Backed(s, e, limit) && e.Revived?
    ensures Inv(Next(s, e, limit), limit)
  {
    OneMoreRuns(s.containers, e.nodeId);
    var s' := Next(s, e, limit);
    if s.containers[NodeName(e.nodeId)].running {
      SubsetSize(RunningIds(s'.containers), RunningIds(s.containers));
    } else {
      DistinctCount(s.cache);
      SubsetSize(RunningIds(s'.containers), NodeIds(s.cache));
    }
  }

  lemma StepKeepsInv(s: State, e: Event, limit: int)
    requires Inv(s, limit) && Possible(s, e, limit) && Regular(s, e) && Backed(s, e, limit)
    ensures Inv(Next(s, e, limit), limit)
  {
    var s' := Next(s, e, limit);
    match e
    case Stopped(name) => FewerRun(s.containers, s'.containers); ShrinkKeepsInv(s, s', limit);
    case Removed(name) => FewerRun(s.containers, s'.containers); ShrinkKeepsInv(s, s', limit);
    case Created(nodeId, id) =>
      SameRun(s.containers, nodeId, s'.containers[NodeName(nodeId)]);
      ShrinkKeepsInv(s, s', limit);
    case RefreshListed(_) => ListedKeepsInv(s, e, limit);
    case RefreshWritten(_) => WrittenKeepsInv(s, e, limit);
    case Admitted(_, _) => AdmittedKeepsInv(s, e, limit);
    case Started(_) => StartedKeepsInv(s, e, limit);
    case CacheWritten => CacheWrittenKeepsInv(s, e, limit);
    case AllReady => LandingKeepsInv(s, e, limit);
    case RolledBack => LandingKeepsInv(s, e, limit);
    case RestartEnded => LandingKeepsInv(s, e, limit);
    case Revived(_) => RevivedKeepsInv(s, e, limit);
    case CacheRead =>
    case Failed =>
    case RestartBegun(_, _) =>
    case _ =>
  }

  function Listings(refreshes: seq<seq<Entry>>): set<nat> {
    set i, e | 0 <= i < |refreshes| && e in refreshes[i] :: e.hydraNodeId
  }

  function InFlight(f: Flight): set<nat> {
    (if f.Caching? || f.RestartCaching? then NodeIds(f.current) else {}) +
    (if f.Grounded? then {} else IdsOf(f.nodes))
  }

  /** Every node the cache can come to list: those cached, listed or read, and those of the flight. */
  function Known(s: State): set<nat> {
    NodeIds(s.cache) + Listings(s.refreshes) + InFlight(s.flight)
  }

  ghost predicate KnownBounded(s: State, limit: int) {
    Known(s) == {} || |Known(s)| <= limit
  }

  lemma StartHasInv(limit: int)
    ensures Inv(START, limit) && KnownBounded(START, limit)
  {
    assert Known(START) == {};
    assert RunningIds(START.containers) == {};
  }

  // ---------- keeping the cache within the limit ----------

  lemma FewerKnown(s: State, s': State, limit: int)
    requires KnownBounded(s, limit) && Known(s') <= Known(s)
    ensures KnownBounded(s', limit)
  {
    SubsetSize(Known(s'), Known(s));
  }

  lemma AdmittedKeepsKnown(s: State, e: Event, limit: int)
    requires Possible(s, e, limit) && e.Admitted? && s.refreshes == []
    requires DistinctNodes(s.cache)
    ensures KnownBounded(Next(s, e, limit), limit)
  {
    DistinctCount(s.cache);
    IdCount(e.nodes);
    assert Known(Next(s, e, limit)) == NodeIds(s.cache) + IdsOf(e.nodes);
  }

  lemma CoveredIsKnown(s: State, limit: int, id: nat)
    requires Inv(s, limit) && id in RunningIds(s.containers)
    ensures id in Known(s)
  {
    assert id in NodeIds(s.cache) + Uncached(s.flight);
    assert Activating(s.flight) ==> s.flight.created <= IdsOf(s.flight.nodes);
  }

  lemma ListedKeepsKnown(s: State, e: Event, limit: int)
    requires Inv(s, limit) && Possible(s, e, limit) && e.RefreshListed?
    ensures Known(Next(s, e, limit)) <= Known(s)
  {
    ActiveNodesOfListing(e.listing, s.containers);
    var s' := Next(s, e, limit);
    var n := |s.refreshes|;
    forall i, x | 0 <= i < |s'.refreshes| && x in s'.refreshes[i] ensures x.hydraNodeId in Known(s) {
      if i < n {
        assert s'.refreshes[i] == s.refreshes[i];
      } else {
        assert x.hydraNodeId in NodeIds(ActiveNodes(e.listing));
        CoveredIsKnown(s, limit, x.hydraNodeId);
      }
    }
  }

  lemma WrittenKeepsKnown(s: State, e: Event, limit: int)
    requires Possible(s, e, limit) && e.RefreshWritten?
    ensures Known(Next(s, e, limit)) <= Known(s)
  {
    var s' := Next(s, e, limit);
    forall x | x in s'.cache ensures x.hydraNodeId in Listings(s.refreshes) {
      assert x in s.refreshes[e.i];
    }
    forall i, x | 0 <= i < |s'.refreshes| && x in s'.refreshes[i] ensures x.hydraNodeId in Listings(s.refreshes) {
      assert s'.refreshes[i] == s.refreshes[if i < e.i then i else i + 1];
    }
  }

  lemma CacheWrittenKeepsKnown(s: State, e: Event, limit: int)
    requires Distinct(s) && Possible(s, e, limit) && e.CacheWritten?
    ensures Known(Next(s, e, limit)) <= Known(s)
  {
    NodeEntriesFacts(s.flight.headId, s.flight.nodes);
    MergeFacts(s.flight.current, NodeEntries(s.flight.headId, s.flight.nodes));
  }

  lemma RestartBegunKeepsKnown(s: State, e: Event, limit: int)
    requires Possible(s, e, limit) && e.RestartBegun?
    ensures Known(Next(s, e, limit)) <= Known(s)
  {
    assert forall i :: 0 <= i < |e.nodes| ==> e.nodes[i].id in NodeIds(s.cache);
  }

  /** Steps of the flight that bring in no node it did not know of. */
  lemma FlightKeepsKnown(s: State, e: Event, limit: int)
    requires Possible(s, e, limit)
    requires e.Started? || e.CacheRead? || e.AllReady? || e.Failed? || e.RolledBack? || e.RestartEnded?
    ensures Known(Next(s, e, limit)) <= Known(s)
  {
    var s' := Next(s, e, limit);
    assert s'.cache == s.cache && s'.refreshes == s.refreshes;
    assert InFlight(s'.flight) <= NodeIds(s.cache) + InFlight(s.flight);
  }

  lemma ContainersKeepKnown(s: State, e: Event, limit: int)
    requires Possible(s, e, limit) && (e.Stopped? || e.Removed? || e.Created? || e.Revived?)
    ensures Known(Next(s, e, limit)) == Known(s)
  {
    var s' := Next(s, e, limit);
    assert s'.cache == s.cache && s'.refreshes == s.refreshes && s'.flight == s.flight;
  }

  lemma OthersKeepKnown(s: State, e: Event, limit: int)
    requires Inv(s, limit) && Possible(s, e, limit) && Regular(s, e) && !e.Admitted?
    ensures Known(Next(s, e, limit)) <= Known(s)
  {
    if e.Stopped? || e.Removed? || e.Created? || e.Revived? {
      ContainersKeepKnown(s, e, limit);
    } else if e.RefreshListed? {
      ListedKeepsKnown(s, e, limit);
    } else if e.RefreshWritten? {
      WrittenKeepsKnown(s, e, limit);
    } else if e.CacheWritten? {
      CacheWrittenKeepsKnown(s, e, limit);
    } else if e.RestartBegun? {
      RestartBegunKeepsKnown(s, e, limit);
    } else {
      FlightKeepsKnown(s, e, limit);
    }
  }

  lemma StepKeepsKnown(s: State, e: Event, limit: int)
    requires Inv(s, limit) && KnownBounded(s, limit) && Possible(s, e, limit) && Regular(s, e) && Orderly(s, e)
    ensures KnownBounded(Next(s, e, limit), limit)
  {
    if e.Admitted? {
      AdmittedKeepsKnown(s, e, limit);
    } else {
      OthersKeepKnown(s, e, limit);
      FewerKnown(s, Next(s, e, limit), limit);
    }
  }

  // ---------- restarts in orderly runs ----------

  /** While a restart is under way no refresh is pending, and the cache lists all its nodes. */
  predicate RestartCached(s: State) {
    InRestart(s.flight) ==>
      s.refreshes == [] && IdsOf(s.flight.nodes) <= NodeIds(s.cache) &&
      (s.flight.RestartCaching? ==> s.flight.current == s.cache)
  }

  lemma CacheWrittenKeepsCached(s: State, e: Event, limit: int)
    requires RestartCached(s) && Distinct(s) && Possible(s, e, limit) && e.CacheWritten?
    ensures RestartCached(Next(s, e, limit))
  {
    NodeEntriesFacts(s.flight.headId, s.flight.nodes);
    MergeFacts(s.flight.current, NodeEntries(s.flight.headId, s.flight.nodes));
  }

  lemma StepKeepsCached(s: State, e: Event, limit: int)
    requires RestartCached(s) && Distinct(s) && Possible(s, e, limit) && Regular(s, e) && Orderly(s, e)
    ensures RestartCached(Next(s, e, limit))
  {
    if e.CacheWritten? {
      CacheWrittenKeepsCached(s, e, limit);
    } else if e.RestartBegun? {
      assert forall i :: 0 <= i < |e.nodes| ==> e.nodes[i].id in NodeIds(s.cache);
    }
  }

  /** So in an orderly run a container is only ever revived while the cache lists its node, no refresh is
      about to change that, and the cache is within the limit. */
  lemma RevivalIsBacked(s: State, e: Event, limit: int)
    requires KnownBounded(s, limit) && RestartCached(s) && DistinctNodes(s.cache) && Possible(s, e, limit)
    ensures Backed(s, e, limit)
  {
    if Revives(s, e) {
      SubsetSize(NodeIds(s.cache), Known(s));
      DistinctCount(s.cache);
    }
  }

  /** The invariant, and in orderly runs what restarts need. */
  ghost predicate Kept(s: State, limit: int, orderly: bool) {
    Inv(s, limit) && (orderly ==> KnownBounded(s, limit) && RestartCached(s))
  }

  lemma StepKeeps(s: State, e: Event, limit: int, orderly: bool)
    requires Kept(s, limit, orderly) && Possible(s, e, limit) && Regular(s, e)
    requires if orderly then Orderly(s, e) else !Revives(s, e)
    ensures Kept(Next(s, e, limit), limit, orderly)
  {
    if orderly {
      RevivalIsBacked(s, e, limit);
      StepKeepsKnown(s, e, limit);
      StepKeepsCached(s, e, limit);
    }
    StepKeepsInv(s, e, limit);
  }

  lemma StepAtKeeps(states: seq<State>, events: seq<Event>, limit: int, k: nat, orderly: bool)
    requires Run(states, events, limit) && RegularRun(states, events) && k < |events|
    requires if orderly then OrderlyRun(states, events) else RevivesNothing(states, events)
    requires Kept(states[k], limit, orderly)
    ensures Kept(states[k + 1], limit, orderly)
  {
    assert StepAt(states, events, limit, k) && Regular(states[k], events[k]);
    assert if orderly then Orderly(states[k], events[k]) else !Revives(states[k], events[k]);
    StepKeeps(states[k], events[k], limit, orderly);
  }

  lemma RunKeepsInv(states: seq<State>, events: seq<Event>, limit: int, i: nat, orderly: bool)
    requires Run(states, events, limit) && RegularRun(states, events) && i < |states|
    requires if orderly then OrderlyRun(states, events) else RevivesNothing(states, events)
    ensures Kept(states[i], limit, orderly)
  {
    ghost var inv := s => Kept(s, limit, orderly);
    StartHasInv(limit);
    forall k: nat | k < i ensures Seqs.Carries(inv, states, k) {
      if inv(states[k]) {
        StepAtKeeps(states, events, limit, k, orderly);
      }
    }
    Seqs.CarriedAlong(inv, states, i);
  }

  /** At every intermediate step of every regular run that revives no stopped container, and of every
      regular and orderly one whatever it revives: the cache repeats no node, it covers every running
      node together with those the head in flight has started, and the running nodes stay within the
      limit. */
  lemma NodeLimitHolds(states: seq<State>, events: seq<Event>, limit: int, i: nat)
    requires Run(states, events, limit) && RegularRun(states, events) && i < |states|
    requires RevivesNothing(states, events) || OrderlyRun(states, events)
    ensures DistinctNodes(states[i].cache)
    ensures RunningIds(states[i].containers) <= NodeIds(states[i].cache) + Uncached(states[i].flight)
    ensures WithinLimit(states[i].containers, limit)
  {
    RunKeepsInv(states, events, limit, i, OrderlyRun(states, events));
    AdmissibleWithinLimit(states[i], limit);
  }

  function RunningNames(cs: Containers): set<string> {
    set name | name in cs && MatchesNodePattern(name) && cs[name].running
  }

  lemma {:induction false} LabelCount(cs: Containers, names: set<string>)
    requires Labelled(cs)
    requires forall name :: name in names ==> name in cs && MatchesNodePattern(name)
    ensures |set name | name in names :: cs[name].nodeLabel| == |names|
    decreases names
  {
    if names != {} {
      var name :| name in names;
      LabelCount(cs, names - {name});
      var labels := set n | n in names - {name} :: cs[n].nodeLabel;
      assert cs[name].nodeLabel !in labels;
      assert (set n | n in names :: cs[n].nodeLabel) == labels + {cs[name].nodeLabel};
    }
  }

  /** Counting running node ids is counting running Hydra containers. */
  lemma RunningContainersCount(cs: Containers)
    requires Labelled(cs)
    ensures |RunningNames(cs)| == |RunningIds(cs)|
  {
    LabelCount(cs, RunningNames(cs));
    assert RunningIds(cs) == set name | name in RunningNames(cs) :: cs[name].nodeLabel;
  }

  // ---------- the conditions on refreshes are needed ----------

  /** Every step but perhaps one is regular, and quiet if so asked. */
  ghost predicate RegularBut(states: seq<State>, events: seq<Event>, exception: nat, quiet: bool) {
    |events| <= |states| && forall k :: 0 <= k < |events| && k != exception ==>
      Regular(states[k], events[k]) && (quiet ==> Quiet(states[k], events[k]))
  }

  /** One more step of a run that is regular but for one step. */
  lemma Extend(states: seq<State>, events: seq<Event>, e: Event, limit: int, exception: nat, quiet: bool)
    returns (states': seq<State>, events': seq<Event>)
    requires Run(states, events, limit) && RegularBut(states, events, exception, quiet)
    requires Possible(states[|events|], e, limit)
    requires |events| != exception ==> Regular(states[|events|], e) && (quiet ==> Quiet(states[|events|], e))
    ensures Run(states', events', limit) && RegularBut(states', events', exception, quiet)
    ensures states' == states + [Next(states[|events|], e, limit)] && events' == events + [e]
  {
    states', events' := states + [Next(states[|events|], e, limit)], events + [e];
    forall i: nat | i < |events'| ensures StepAt(states', events', limit, i) {
      if i < |events| {
        assert StepAt(states, events, limit, i);
      }
    }
  }

  function Up(headId: nat, nodeId: nat): Container {
    Container(0, true, headId, nodeId)
  }

  /** From an empty cache a head with one node is admitted. */
  lemma Admit(states: seq<State>, events: seq<Event>, headId: nat, node: Node, exception: nat, quiet: bool)
    returns (states': seq<State>, events': seq<Event>)
    requires Run(states, events, 1) && RegularBut(states, events, exception, quiet) && |events| != exception
    requires states[|events|].flight.Grounded? && states[|events|].cache == []
    requires quiet ==> states[|events|].refreshes == []
    ensures Run(states', events', 1) && RegularBut(states', events', exception, quiet)
    ensures |events'| == |events| + 1
    ensures states'[|events'|] == states[|events|].(flight := Starting(headId, [node], {}, {}))
  {
    assert [node][0].id !in NodeIds(states[|events|].cache) && NodeIds(states[|events|].cache) == {};
    states', events' := Extend(states, events, Admitted(headId, [node]), 1, exception, quiet);
  }

  /** An admitted head with one node comes up, whatever the cache holds. */
  lemma BringUp(states: seq<State>, events: seq<Event>, exception: nat, quiet: bool)
    returns (states': seq<State>, events': seq<Event>)
    requires Run(states, events, 1) && RegularBut(states, events, exception, quiet)
    requires var s := states[|events|];
             s.flight.Starting? && s.flight.created == {} && |s.flight.nodes| == 1 &&
             NodeName(s.flight.nodes[0].id) !in s.containers && (s.refreshes == [] || exception == |events| + 1)
    ensures Run(states', events', 1) && RegularBut(states', events', exception, quiet)
    ensures |events'| == |events| + 5
    ensures var s, node := states[|events|], states[|events|].flight.nodes[0];
            states'[|events'|] == State(s.containers[NodeName(node.id) := Up(s.flight.headId, node.id)],
                                        Merge(s.cache, NodeEntries(s.flight.headId, [node])), s.refreshes, Grounded)
  {
    var node := states[|events|].flight.nodes[0];
    assert states[|events|].flight.nodes == [node];
    assert [node][0].id in IdsOf([node]) && IdsOf([node]) == {node.id};
    states', events' := Extend(states, events, Created(node.id, 0), 1, exception, quiet);
    states', events' := Extend(states', events', Started(node.id), 1, exception, quiet);
    states', events' := Extend(states', events', CacheRead, 1, exception, quiet);
    states', events' := Extend(states', events', CacheWritten, 1, exception, quiet);
    states', events' := Extend(states', events', AllReady, 1, exception, quiet);
  }

  lemma NamesApart(a: nat, b: nat)
    requires a != b
    ensures NodeName(a) != NodeName(b)
  {
    if NodeName(a) == NodeName(b) {
      NodeNameInjective(a, b);
    }
  }

  lemma TwoRun(cs: Containers, g: nat, a: nat, h: nat, b: nat)
    requires a != b && NodeName(a) in cs && NodeName(b) in cs
    requires cs[NodeName(a)] == Up(g, a) && cs[NodeName(b)] == Up(h, b)
    ensures !WithinLimit(cs, 1)
  {
    NodeNameMatches(a);
    NodeNameMatches(b);
    assert a in RunningIds(cs) && b in RunningIds(cs);
    SubsetSize({a, b}, RunningIds(cs));
  }

  /** One refresh that listed before a container start and writes after it is enough to get past a
      limit of one: the late write empties the cache while a node runs, and a second head is admitted. */
  lemma StraddlingRefreshBreaksLimit(a: Node, b: Node, g: nat, h: nat) returns (states: seq<State>, events: seq<Event>)
    requires a.id != b.id
    ensures Run(states, events, 1) && RegularBut(states, events, 3, false)
    ensures !WithinLimit(states[|events|].containers, 1)
  {
    states, events := [START], [];
    assert ActiveNodes([]) == [];
    states, events := Extend(states, events, RefreshListed([]), 1, 3, false);
    states, events := Admit(states, events, g, a, 3, false);
    states, events := BringUp(states, events, 3, false);
    states, events := Extend(states, events, RefreshWritten(0), 1, 3, false);
    NamesApart(a.id, b.id);
    states, events := Admit(states, events, h, b, 3, false);
    states, events := BringUp(states, events, 3, false);
    TwoRun(states[|events|].containers, g, a.id, h, b.id);
  }

  lemma OneShown(nodeId: nat, c: Container)
    requires c.nodeLabel == nodeId
    ensures ShownEntry(Listed(NodeName(nodeId), c)) ==
            if c.running then Some(Entry(nodeId, c.headLabel, true)) else None
  {
    NodeNameMatches(nodeId);
  }

  /** A listing of a single container of the given node. */
  lemma OneListing(cs: Containers, nodeId: nat)
    requires cs.Keys == {NodeName(nodeId)} && cs[NodeName(nodeId)].nodeLabel == nodeId
    ensures var l := [Listed(NodeName(nodeId), cs[NodeName(nodeId)])];
            IsListing(l, cs) &&
            ActiveNodes(l) == if l[0].container.running then [Entry(nodeId, l[0].container.headLabel, true)] else []
  {
    var l := [Listed(NodeName(nodeId), cs[NodeName(nodeId)])];
    OneShown(nodeId, l[0].container);
    Seqs.PickOne(l[0], ShownEntry);
    assert l[0] in l;
  }

  lemma TwoRefreshesListed(states: seq<State>, events: seq<Event>, g: nat, a: Node)
    returns (states': seq<State>, events': seq<Event>)
    requires Run(states, events, 1) && RegularBut(states, events, 19, false) && |events| == 6
    requires states[6].containers == map[NodeName(a.id) := Up(g, a.id)]
    requires states[6].refreshes == [] && states[6].flight == Grounded
    ensures Run(states', events', 1) && RegularBut(states', events', 19, false) && |events'| == 9
    ensures states'[9] == State(map[NodeName(a.id) := Container(0, false, g, a.id)], states[6].cache,
                                [[Entry(a.id, g, true)], []], Grounded)
  {
    var name := NodeName(a.id);
    var up, down := Up(g, a.id), Container(0, false, g, a.id);
    OneListing(map[name := up], a.id);
    OneListing(map[name := down], a.id);
    states', events' := Extend(states, events, RefreshListed([Listed(name, up)]), 1, 19, false);
    states', events' := Extend(states', events', Stopped(name), 1, 19, false);
    assert states'[8].containers == map[name := down];
    states', events' := Extend(states', events', RefreshListed([Listed(name, down)]), 1, 19, false);
  }

  /** The crash, the two overlapping refreshes, and the admission between their writes. */
  lemma CacheRepopulated(states: seq<State>, events: seq<Event>, g: nat, a: Node, h: nat, b: Node)
    returns (states': seq<State>, events': seq<Event>)
    requires Run(states, events, 1) && RegularBut(states, events, 19, false) && |events| == 6
    requires states[6].containers == map[NodeName(a.id) := Up(g, a.id)]
    requires states[6].refreshes == [] && states[6].flight == Grounded
    ensures Run(states', events', 1) && RegularBut(states', events', 19, false) && |events'| == 12
    ensures states'[12] == State(map[NodeName(a.id) := Container(0, false, g, a.id)], [Entry(a.id, g, true)], [],
                                 Starting(h, [b], {}, {}))
  {
    states', events' := TwoRefreshesListed(states, events, g, a);
    states', events' := Extend(states', events', RefreshWritten(1), 1, 19, false);
    states', events' := Admit(states', events', h, b, 19, false);
    states', events' := Extend(states', events', RefreshWritten(0), 1, 19, false);
  }

  /** restart never checks the limit, and regular steps alone do not make up for it: after two refreshes
      wrote in the wrong order, with an admission in between, the cache lists a crashed node again, and
      restarting it brings the running nodes past a limit of one. */
  lemma RestartPastTheLimit(a: Node, b: Node, g: nat, h: nat) returns (states: seq<State>, events: seq<Event>)
    requires a.id != b.id
    ensures Run(states, events, 1) && RegularRun(states, events)
    ensures !WithinLimit(states[|events|].containers, 1)
  {
    NamesApart(a.id, b.id);
    states, events := [START], [];
    states, events := Admit(states, events, g, a, 19, false);
    states, events := BringUp(states, events, 19, false);
    states, events := CacheRepopulated(states, events, g, a, h, b);
    states, events := BringUp(states, events, 19, false);
    var s := states[|events|];
    MergeFacts([Entry(a.id, g, true)], NodeEntries(h, [b]));
    assert [a][0].id in IdsOf([a]);
    states, events := Extend(states, events, RestartBegun(g, [a]), 1, 19, false);
    states, events := Extend(states, events, Revived(a.id), 1, 19, false);
    TwoRun(states[|events|].containers, g, a.id, h, b.id);
  }

  /** A refresh that comes and goes while a restart is under way lists and writes without what the
      restart is about to revive. */
  lemma RefreshedWhileRestarting(states: seq<State>, events: seq<Event>, g: nat, a: Node)
    returns (states': seq<State>, events': seq<Event>)
    requires Run(states, events, 1) && RegularBut(states, events, 18, true) && |events| == 6
    requires states[6].containers == map[NodeName(a.id) := Up(g, a.id)]
    requires a.id in NodeIds(states[6].cache) && states[6].refreshes == [] && states[6].flight == Grounded
    ensures Run(states', events', 1) && RegularBut(states', events', 18, true) && |events'| == 10
    ensures states'[10] == State(map[NodeName(a.id) := Container(0, false, g, a.id)], [], [], Restarting(g, [a]))
  {
    var name := NodeName(a.id);
    var down := Container(0, false, g, a.id);
    OneListing(map[name := down], a.id);
    states', events' := Extend(states, events, RestartBegun(g, [a]), 1, 18, true);
    states', events' := Extend(states', events', Stopped(name), 1, 18, true);
    assert states'[8].containers == map[name := down];
    states', events' := Extend(states', events', RefreshListed([Listed(name, down)]), 1, 18, true);
    states', events' := Extend(states', events', RefreshWritten(0), 1, 18, true);
  }

  /** Keeping refreshes apart from each other, from admissions, from starts and from the beginnings of
      restarts is not enough either: one that comes and goes during a restart leaves the cache empty
      while the restarted node runs, and a second head is admitted past a limit of one. */
  lemma RefreshDuringRestartBreaksLimit(a: Node, b: Node, g: nat, h: nat)
    returns (states: seq<State>, events: seq<Event>)
    requires a.id != b.id
    ensures Run(states, events, 1) && RegularRun(states, events)
    ensures forall k: nat :: k < |events| ==> Quiet(states[k], events[k])
    ensures !WithinLimit(states[|events|].containers, 1)
  {
    NamesApart(a.id, b.id);
    states, events := [START], [];
    states, events := Admit(states, events, g, a, 18, true);
    states, events := BringUp(states, events, 18, true);
    MergeFacts([], NodeEntries(g, [a]));
    assert [a][0].id in IdsOf([a]);
    NodeEntriesFacts(g, [a]);
    states, events := RefreshedWhileRestarting(states, events, g, a);
    states, events := Extend(states, events, Revived(a.id), 1, 18, true);
    states, events := Extend(states, events, RestartEnded, 1, 18, true);
    states, events := Admit(states, events, h, b, 18, true);
    states, events := BringUp(states, events, 18, true);
    TwoRun(states[|events|].containers, g, a.id, h, b.id);
  }
}
