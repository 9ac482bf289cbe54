/** HydraHeadService: the life of a head over the database, Docker, the cache and the disk. */
module HydraHeads {
  import opened Wrappers
  import opened Names
  import opened Docker
  import opened DockerServices
  import opened Readiness
  import opened HeadRows
  import opened ContainerChanges
  import Ports
  import Seqs
  import Sets

  /** An ACTIVE_HYDRA_HEAD event; nodes lists the ids it carries, if it carries any. */
  datatype Event = HeadEvent(headId: nat, status: Status, nodes: Option<seq<nat>>)

  datatype Activation =
    | Rejected(reason: Rejection)   // thrown before anything was touched
    | NotPrepared                   // protocol parameters or the network could not be had
    | Activated
    | RolledBack(pushed: nat, cleaned: bool, stored: bool)
      // pushed: how many containers were in createdContainers; cleaned: none of their cleanups threw;
      // stored: neither did the write of `stop`

  datatype Deletion = NothingToDelete | RowsRemain | Deleted

  datatype Deactivation = UnknownHead | NotStored | Deactivated

  /** stored: where a `stop` was to be written, the write went through. */
  datatype Restart = NoSuchHead | NotAllActive(names: seq<string>) | Restarted | RestartFailed(stored: bool)

  function NodeIdList(nodes: seq<Node>): (ids: seq<nat>)
    ensures |ids| == |nodes| && forall id :: id in ids <==> id in IdsOf(nodes)
  {
    var ids := seq(|nodes|, i requires 0 <= i < |nodes| => nodes[i].id);
    assert forall i :: 0 <= i < |nodes| ==> ids[i] == nodes[i].id;
    ids
  }

  /** The container names of the nodes, in order. */
  function NodeNames(nodes: seq<Node>): seq<string> {
    seq(|nodes|, i requires 0 <= i < |nodes| => NodeName(nodes[i].id))
  }

  lemma NodeNamesStep(nodes: seq<Node>, i: nat)
    requires i < |nodes|
    ensures NodeNames(nodes[..i + 1]) == NodeNames(nodes[..i]) + [NodeName(nodes[i].id)]
  {
  }

  /** They name each node's container, each once, and no other. */
  lemma NodeNamesExact(nodes: seq<Node>)
    requires DistinctIds(nodes)
    ensures forall name :: name in NodeNames(nodes) <==> name in NamesOf(nodes)
    ensures forall i, j :: 0 <= i < j < |NodeNames(nodes)| ==> NodeNames(nodes)[i] != NodeNames(nodes)[j]
  {
    forall name | name in NamesOf(nodes) ensures name in NodeNames(nodes) {
      var i :| 0 <= i < |nodes| && name == NodeName(nodes[i].id);
      assert NodeNames(nodes)[i] == name;
    }
    forall i, j | 0 <= i < j < |nodes| ensures NodeNames(nodes)[i] != NodeNames(nodes)[j] {
      NamesDiffer(nodes, i);
    }
  }

  /** What an operation reads and changes, at one moment, and the restart calls Docker has got by then. */
  datatype World = World(heads: Heads, events: seq<Event>, containers: Containers, cache: seq<Entry>,
                         restarts: seq<string>)

  /** The head is stored as running after all its nodes answered ready; its containers, and only its,
      are new and running; its nodes joined the cache; one `running` event went out. */
  ghost predicate WentUp(id: nat, answers: Answers, w: World, w': World) {
    id in w.heads &&
    var nodes := w.heads[id].nodes;
    && w'.heads == w.heads[id := Head(Running, nodes)]
    && w'.events == w.events + [HeadEvent(id, Running, Some(NodeIdList(nodes)))]
    && AllUp(w.containers, w'.containers, nodes)
    && NodeIds(w'.cache) == NodeIds(w.cache) + IdsOf(nodes)
    && ReadyInTime(nodes, answers)
  }

  /** The head is stored as stopped and one `stop` event went out, or the write of `stop` threw and
      neither happened; no other head's container changed, the cache lost nothing, and if the cleanups
      went through, the containers the call had pushed, those of the first `pushed` nodes, are gone. */
  ghost predicate WentDown(id: nat, pushed: nat, cleaned: bool, stored: bool, w: World, w': World) {
    id in w.heads && pushed <= |w.heads[id].nodes| &&
    var nodes := w.heads[id].nodes;
    && w'.heads == (if stored then w.heads[id := Head(Stop, nodes)] else w.heads)
    && w'.events == w.events + (if stored then [HeadEvent(id, Stop, Some(NodeIdList(nodes)))] else [])
    && NodeIds(w.cache) <= NodeIds(w'.cache) <= NodeIds(w.cache) + IdsOf(nodes)
    && SameOutside(w.containers, w'.containers, NamesOf(nodes))
    && (cleaned ==> RolledBackClean(w.containers, w'.containers, nodes, pushed))
  }

  /** Containers had been pushed for all the nodes, and none is left. */
  predicate NoneLeft(nodes: seq<Node>, pushed: nat, cs: Containers) {
    pushed == |nodes| && NamesOf(nodes) !! cs.Keys
  }

  /** The head is stopped, unless it was seen running all over or the write threw. */
  predicate StopUnless(stored: bool, allRun: bool, id: nat, heads: Heads, heads': Heads)
    requires id in heads
  {
    (heads' == heads && (!stored || allRun)) || (stored && heads' == heads[id := Head(Stop, heads[id].nodes)])
  }

  /** After a restart: Docker was told once to restart each container of the head, and no other; only
      those may have changed, between running and stopped; the cache holds the nodes it held; on failure
      the head is stopped unless all its containers were seen running; one event carries the status the
      head had before, unless the write of `stop` threw. While Docker fails no call and the containers
      exist, they all run, and the restart succeeds if and only if the nodes get ready in time. */
  ghost predicate CameBack(id: nat, answers: Answers, ok: bool, stored: bool, healthy: bool, w: World, w': World) {
    id in w.heads &&
    var nodes := w.heads[id].nodes;
    && w'.restarts == w.restarts + NodeNames(nodes)
    && w'.events == w.events + (if stored then [HeadEvent(id, w.heads[id].status, None)] else [])
    && Bounced(w.containers, w'.containers, NamesOf(nodes))
    && NodeIds(w'.cache) == NodeIds(w.cache)
    && (ok ==> stored && w'.heads == w.heads && AllRun(w'.containers, nodes) && ReadyInTime(nodes, answers))
    && StopUnless(stored, AllRun(w'.containers, nodes), id, w.heads, w'.heads)
    && (healthy && NamesOf(nodes) <= w.containers.Keys ==>
          stored && w'.heads == w.heads && AllRun(w'.containers, nodes) && (ok <==> ReadyInTime(nodes, answers)))
  }

  /** Between the two: some containers are started, perhaps cached, and nothing is stored or announced. */
  ghost predicate HalfWay(id: nat, handles: seq<Handle>, w: World, w': World) {
    && id in w.heads && w'.heads == w.heads && w'.events == w.events && |handles| <= |w.heads[id].nodes|
    && UpTo(w'.containers, id, w.heads[id].nodes, handles)
    && RestKept(w.containers, w'.containers, w.heads[id].nodes, |handles|)
    && NodeIds(w.cache) <= NodeIds(w'.cache) <= NodeIds(w.cache) + IdsOf(w.heads[id].nodes)
  }

  lemma StopUnlessMoves(stored: bool, allRun: bool, id: nat, heads: Heads, heads': Heads)
    requires id in heads && StopUnless(stored, allRun, id, heads, heads')
    ensures StatusMoves(heads, heads')
  {
  }

  lemma OutcomeMoves(id: nat, answers: Answers, r: Activation, w: World, w': World)
    requires (r.Activated? && WentUp(id, answers, w, w')) ||
             (r.RolledBack? && WentDown(id, r.pushed, r.cleaned, r.stored, w, w'))
    ensures StatusMoves(w.heads, w'.heads)
  {
    assert w'.heads != w.heads ==> w'.heads == w.heads[id := w'.heads[id]] && w'.heads[id].status != Configured;
  }

  // ---------- the node limit across whole operations ----------

  /** The cache lists every running node, once, and is itself within the limit. */
  ghost predicate Capped(w: World, limit: int) {
    && RunningIds(w.containers) <= NodeIds(w.cache)
    && DistinctNodes(w.cache) && (w.cache == [] || |w.cache| <= limit)
  }

  lemma CappedWithinLimit(w: World, limit: int)
    requires Capped(w, limit)
    ensures WithinLimit(w.containers, limit)
  {
    DistinctCount(w.cache);
    Sets.SubsetSize(RunningIds(w.containers), NodeIds(w.cache));
  }

  lemma NodesRunAtMost(cs: Containers, cs': Containers, nodes: seq<Node>)
    requires Labelled(cs') && SameOutside(cs, cs', NamesOf(nodes))
    ensures RunningIds(cs') <= RunningIds(cs) + IdsOf(nodes)
  {
    forall name | name in cs' && MatchesNodePattern(name) && cs'[name].running
      ensures cs'[name].nodeLabel in RunningIds(cs) + IdsOf(nodes)
    {
      if name in NamesOf(nodes) {
        var i :| 0 <= i < |nodes| && name == NodeName(nodes[i].id);
        NodeNameInjective(cs'[name].nodeLabel, nodes[i].id);
      } else {
        assert SameAt(cs, cs', name);
      }
    }
  }

  lemma RollbackRunsNoMore(cs: Containers, cs': Containers, nodes: seq<Node>, k: nat)
    requires RolledBackClean(cs, cs', nodes, k)
    ensures RunningIds(cs') <= RunningIds(cs)
  {
    forall name | name in cs' && MatchesNodePattern(name) && cs'[name].running
      ensures cs'[name].nodeLabel in RunningIds(cs)
    {
      if k < |nodes| {
        NamesOfStep(nodes, k);
      } else {
        assert nodes[..k] == nodes;
      }
      assert SameAt(cs, cs', name) || (k < |nodes| && name == NodeName(nodes[k].id));
    }
  }

  /** An activation that was let through keeps the cap, whether it succeeds or is rolled back cleanly. */
  lemma ActivationStaysCapped(id: nat, answers: Answers, pushed: nat, stored: bool, w: World, w': World, limit: int)
    requires WentUp(id, answers, w, w') || WentDown(id, pushed, true, stored, w, w')
    requires Admission(w.heads[id].nodes, w.cache, limit).None?
    requires Capped(w, limit) && Labelled(w'.containers) && DistinctNodes(w'.cache)
    ensures Capped(w', limit)
  {
    var nodes := w.heads[id].nodes;
    if WentUp(id, answers, w, w') {
      NodesRunAtMost(w.containers, w'.containers, nodes);
    } else {
      RollbackRunsNoMore(w.containers, w'.containers, nodes, pushed);
    }
    DistinctCount(w.cache);
    DistinctCount(w'.cache);
    IdCount(nodes);
    Sets.SubsetSize(NodeIds(w'.cache), NodeIds(w.cache) + IdsOf(nodes));
  }

  lemma SameIdsSameSize(cache: seq<Entry>, cache': seq<Entry>)
    requires DistinctNodes(cache) && DistinctNodes(cache') && NodeIds(cache) == NodeIds(cache')
    ensures |cache| == |cache'|
  {
    DistinctCount(cache);
    DistinctCount(cache');
  }

  /** restart counts nothing, and need not: it starts nothing the cache does not list. */
  lemma RestartStaysCapped(id: nat, answers: Answers, ok: bool, stored: bool, healthy: bool, w: World, w': World,
                           limit: int)
    requires CameBack(id, answers, ok, stored, healthy, w, w')
    requires InactiveNames(w.cache, id, w.heads[id].nodes) == []
    requires Capped(w, limit) && Labelled(w'.containers) && DistinctNodes(w'.cache)
    ensures Capped(w', limit)
  {
    NodesRunAtMost(w.containers, w'.containers, w.heads[id].nodes);
    ActiveAreCached(w.cache, id, w.heads[id].nodes);
    SameIdsSameSize(w.cache, w'.cache);
  }

  /** Deactivating, deleting and crashing only take running nodes away. */
  lemma ClearedStaysCapped(names: set<string>, w: World, w': World, limit: int)
    requires Cleared(w.containers, w'.containers, names) && w'.cache == w.cache
    requires Capped(w, limit)
    ensures Capped(w', limit)
  {
  }

  /** A refresh that nothing comes between. */
  lemma RefreshStaysCapped(listing: seq<Listed>, w: World, w': World, limit: int)
    requires IsListing(listing, w.containers) && Labelled(w.containers)
    requires w'.containers == w.containers && w'.cache == ActiveNodes(listing)
    requires Capped(w, limit)
    ensures Capped(w', limit)
  {
    ActiveNodesOfListing(listing, w.containers);
    CappedWithinLimit(w, limit);
    DistinctCount(w'.cache);
  }

  // ---------- runs of whole operations ----------

  /** One whole operation, or something that happens to Docker in between. */
  datatype Operation =
    | Create(id: nat, keyCount: nat)
    | Activate(id: nat, answers: Answers, pushed: nat, cleaned: bool, stored: bool)
    | RestartOf(id: nat, answers: Answers, ok: bool, stored: bool, healthy: bool)
    | Deactivate(id: nat, stored: bool)
    | Delete(id: nat, committed: bool)
    | Sweep
    | CacheWrite(entries: seq<Entry>)
    | Crash(names: set<string>)
    | Idle

  /** Containers and cache are as they were. */
  predicate OnlyHeads(w: World, w': World) {
    w'.containers == w.containers && w'.cache == w.cache
  }

  /** What each operation does to the stored heads, the containers and the cache, and that only a restart
      restarts containers; the methods below ensure it of themselves. */
  ghost predicate Does(op: Operation, w: World, w': World, limit: int) {
    (!op.RestartOf? ==> w'.restarts == w.restarts) &&
    match op
    case Create(id, keyCount) =>
      (w'.heads == w.heads || NewHead(w.heads, w'.heads, id, keyCount)) && OnlyHeads(w, w')
    case Activate(id, answers, pushed, cleaned, stored) =>
      (WentUp(id, answers, w, w') || WentDown(id, pushed, cleaned, stored, w, w')) &&
      Admission(w.heads[id].nodes, w.cache, limit).None?
    case RestartOf(id, answers, ok, stored, healthy) =>
      CameBack(id, answers, ok, stored, healthy, w, w') && InactiveNames(w.cache, id, w.heads[id].nodes) == []
    case Deactivate(id, stored) =>
      id in w.heads && w'.heads == (if stored then w.heads[id := Head(Stop, w.heads[id].nodes)] else w.heads) &&
      w'.cache == w.cache && Cleared(w.containers, w'.containers, NamesOf(w.heads[id].nodes))
    case Delete(id, committed) =>
      id in w.heads && w'.heads == (if committed then w.heads - {id} else w.heads) &&
      w'.cache == w.cache && Cleared(w.containers, w'.containers, NamesOf(w.heads[id].nodes))
    case Sweep => OnlyStopped(w.heads, w'.heads) && OnlyHeads(w, w')
    case CacheWrite(entries) => w' == w.(cache := entries)
    case Crash(names) => w' == w.(containers := w'.containers) && Cleared(w.containers, w'.containers, names)
    case Idle => w' == w
  }

  /** The operation a call of activeHydraHead amounted to, by what it returned; likewise below. */
  function ActivationOp(id: nat, answers: Answers, r: Activation): Operation {
    match r
    case Activated => Activate(id, answers, 0, true, true)
    case RolledBack(pushed, cleaned, stored) => Activate(id, answers, pushed, cleaned, stored)
    case _ => Idle
  }

  function RestartOp(id: nat, answers: Answers, healthy: bool, r: Restart): Operation {
    match r
    case Restarted => RestartOf(id, answers, true, true, healthy)
    case RestartFailed(stored) => RestartOf(id, answers, false, stored, healthy)
    case _ => Idle
  }

  function DeactivationOp(id: nat, r: Deactivation): Operation {
    if r.UnknownHead? then Idle else Deactivate(id, r.Deactivated?)
  }

  function DeletionOp(id: nat, r: Deletion): Operation {
    if r.NothingToDelete? then Idle else Delete(id, r.Deleted?)
  }

  ghost predicate DoneAt(worlds: seq<World>, ops: seq<Operation>, limit: int, k: nat)
    requires k < |ops| < |worlds|
  {
    Does(ops[k], worlds[k], worlds[k + 1], limit)
  }

  ghost predicate RunOfOperations(worlds: seq<World>, ops: seq<Operation>, limit: int) {
    |worlds| == |ops| + 1 && forall k: nat :: k < |ops| ==> DoneAt(worlds, ops, limit, k)
  }

  /** Rollbacks are clean, and the cache is written with what a listing of the moment shows. */
  ghost predicate Tidy(op: Operation, w: World) {
    (op.Activate? ==> op.cleaned) &&
    (op.CacheWrite? ==> exists listing :: IsListing(listing, w.containers) && op.entries == ActiveNodes(listing))
  }

  lemma OperationStaysCapped(op: Operation, w: World, w': World, limit: int)
    requires Does(op, w, w', limit) && Tidy(op, w) && Capped(w, limit)
    requires Labelled(w.containers) && Labelled(w'.containers) && DistinctNodes(w'.cache)
    ensures Capped(w', limit)
  {
    match op
    case Activate(id, answers, pushed, _, stored) =>
      ActivationStaysCapped(id, answers, pushed, stored, w, w', limit);
    case RestartOf(id, answers, ok, stored, healthy) =>
      RestartStaysCapped(id, answers, ok, stored, healthy, w, w', limit);
    case Deactivate(id, _) => ClearedStaysCapped(NamesOf(w.heads[id].nodes), w, w', limit);
    case Delete(id, _) => ClearedStaysCapped(NamesOf(w.heads[id].nodes), w, w', limit);
    case Crash(names) => ClearedStaysCapped(names, w, w', limit);
    case CacheWrite(entries) =>
      var listing :| IsListing(listing, w.containers) && entries == ActiveNodes(listing);
      RefreshStaysCapped(listing, w, w', limit);
    case _ =>
  }

  /** What the service's own invariant says of containers and cache. */
  ghost predicate Sound(w: World) {
    Labelled(w.containers) && DistinctNodes(w.cache)
  }

  lemma DoneAtStaysCapped(worlds: seq<World>, ops: seq<Operation>, limit: int, k: nat)
    requires RunOfOperations(worlds, ops, limit) && k < |ops| && Tidy(ops[k], worlds[k])
    requires Sound(worlds[k]) && Sound(worlds[k + 1])
    requires Capped(worlds[k], limit)
    ensures Capped(worlds[k + 1], limit)
  {
    assert DoneAt(worlds, ops, limit, k);
    OperationStaysCapped(ops[k], worlds[k], worlds[k + 1], limit);
  }

  /** Over any row of whole operations, one after the other, with clean rollbacks and refreshes that
      list and write in one go, the running nodes never exceed the limit, restarts included. */
  lemma SerialRunStaysCapped(worlds: seq<World>, ops: seq<Operation>, limit: int, i: nat)
    requires RunOfOperations(worlds, ops, limit) && i < |worlds| && Capped(worlds[0], limit)
    requires forall k: nat :: k < |worlds| ==> Sound(worlds[k])
    requires forall k: nat :: k < |ops| ==> Tidy(ops[k], worlds[k])
    ensures Capped(worlds[i], limit) && WithinLimit(worlds[i].containers, limit)
  {
    ghost var inv := w => Capped(w, limit);
    forall k: nat | k < i ensures Seqs.Carries(inv, worlds, k) {
      if inv(worlds[k]) {
        DoneAtStaysCapped(worlds, ops, limit, k);
      }
    }
    Seqs.CarriedAlong(inv, worlds, i);
    CappedWithinLimit(worlds[i], limit);
  }

  lemma OperationMoves(op: Operation, w: World, w': World, limit: int)
    requires Does(op, w, w', limit)
    ensures StatusMoves(w.heads, w'.heads)
  {
  }

  /** Over any row of whole operations a head that was activated or stopped once, and is there ever since,
      is never configured again. */
  lemma {:induction false} NeverConfiguredAgain(worlds: seq<World>, ops: seq<Operation>, limit: int, h: nat, i: nat,
                                                j: nat)
    requires RunOfOperations(worlds, ops, limit) && i <= j < |worlds|
    requires forall k :: i <= k <= j ==> h in worlds[k].heads
    requires worlds[i].heads[h].status != Configured
    ensures worlds[j].heads[h].status != Configured
    decreases j
  {
    if i < j {
      NeverConfiguredAgain(worlds, ops, limit, h, i, j - 1);
      assert DoneAt(worlds, ops, limit, j - 1);
      OperationMoves(ops[j - 1], worlds[j - 1], worlds[j], limit);
    }
  }

  /** Every head running afterwards was there before, running and the same. */
  predicate NoNewRunning(heads: Heads, heads': Heads) {
    forall h :: h in heads' && heads'[h].status == Running ==> h in heads && heads[h] == heads'[h]
  }

  /** Only an activation that succeeds stores a head as running, and that head has nodes. */
  lemma OnlyActivationRuns(op: Operation, w: World, w': World, limit: int)
    requires Does(op, w, w', limit)
    ensures NoNewRunning(w.heads, w'.heads) ||
            (op.Activate? && WentUp(op.id, op.answers, w, w') && w.heads[op.id].nodes != [])
  {
  }

  /** The activation that made head h run; the row has not changed since. */
  ghost predicate MadeRunning(worlds: seq<World>, ops: seq<Operation>, n: nat, h: nat, k: nat)
    requires k < n < |worlds| == |ops| + 1
  {
    && ops[k].Activate? && ops[k].id == h && WentUp(h, ops[k].answers, worlds[k], worlds[k + 1])
    && h in worlds[n].heads && worlds[n].heads[h].nodes != []
    && ReadyInTime(worlds[n].heads[h].nodes, ops[k].answers)
    && forall j :: k < j <= n ==> h in worlds[j].heads && worlds[j].heads[h] == worlds[n].heads[h]
  }

  /** Over any row of whole operations that starts without heads: a head stored as running owes it to an
      activation in which all its nodes, of which it has some, got ready in time, and nothing has written
      to its row since. */
  lemma {:induction false} RunningWasActivated(worlds: seq<World>, ops: seq<Operation>, limit: int, n: nat, h: nat)
    returns (k: nat)
    requires RunOfOperations(worlds, ops, limit) && worlds[0].heads == map[]
    requires n < |worlds| && h in worlds[n].heads && worlds[n].heads[h].status == Running
    ensures k < n && MadeRunning(worlds, ops, n, h, k)
  {
    assert n > 0;
    var w, w', op := worlds[n - 1], worlds[n], ops[n - 1];
    assert DoneAt(worlds, ops, limit, n - 1);
    OnlyActivationRuns(op, w, w', limit);
    if !NoNewRunning(w.heads, w'.heads) && op.id == h {
      k := n - 1;
    } else {
      k := RunningWasActivated(worlds, ops, limit, n - 1, h);
    }
  }

  /** The nodes of head h are all listed in the cache. */
  predicate Covered(w: World, h: nat) {
    h in w.heads && IdsOf(w.heads[h].nodes) <= NodeIds(w.cache)
  }

  /** No operation changes the nodes of a head that stays, and only a write of the cache takes ids out of it. */
  lemma OperationKeepsCovered(op: Operation, w: World, w': World, limit: int, h: nat)
    requires Does(op, w, w', limit) && Covered(w, h) && h in w'.heads
    requires op.CacheWrite? ==> IdsOf(w.heads[h].nodes) <= NodeIds(op.entries)
    ensures w'.heads[h].nodes == w.heads[h].nodes && Covered(w', h)
  {
  }

  /** Whatever writes the cache between operation k and operation n lists the nodes of head h, which is
      there all the time. */
  ghost predicate StaysListed(worlds: seq<World>, ops: seq<Operation>, h: nat, k: nat, n: nat)
    requires k < n <= |ops| < |worlds|
  {
    (forall j :: k < j <= n ==> h in worlds[j].heads) &&
    forall j :: k < j < n && ops[j].CacheWrite? ==> IdsOf(worlds[k + 1].heads[h].nodes) <= NodeIds(ops[j].entries)
  }

  lemma {:induction false} StartedStaysCovered(worlds: seq<World>, ops: seq<Operation>, limit: int, h: nat, k: nat,
                                               n: nat)
    requires RunOfOperations(worlds, ops, limit) && k < n <= |ops| && StaysListed(worlds, ops, h, k, n)
    requires ops[k].Activate? && WentUp(h, ops[k].answers, worlds[k], worlds[k + 1])
    ensures Covered(worlds[n], h) && worlds[n].heads[h].nodes == worlds[k + 1].heads[h].nodes
    decreases n
  {
    if k + 1 < n {
      StartedStaysCovered(worlds, ops, limit, h, k, n - 1);
      assert DoneAt(worlds, ops, limit, n - 1);
      OperationKeepsCovered(ops[n - 1], worlds[n - 1], worlds[n], limit, h);
    }
  }

  /** A head that was started is not started over, and so not torn down, while the cache goes on listing its
      nodes: over any row of whole operations the next activation of it, if any, is one that is refused. */
  lemma NotStartedOver(worlds: seq<World>, ops: seq<Operation>, limit: int, h: nat, k: nat, n: nat)
    requires RunOfOperations(worlds, ops, limit) && k < n < |ops| && StaysListed(worlds, ops, h, k, n)
    requires ops[k].Activate? && ops[k].id == h && WentUp(h, ops[k].answers, worlds[k], worlds[k + 1])
    ensures !(ops[n].Activate? && ops[n].id == h)
  {
    StartedStaysCovered(worlds, ops, limit, h, k, n);
    assert DoneAt(worlds, ops, limit, n);
    StartedIffIdsCached(worlds[n].heads[h].nodes, worlds[n].cache, limit);
  }

  /** The restart calls an operation makes. */
  function RestartedBy(op: Operation, heads: Heads): seq<string> {
    if op.RestartOf? && op.id in heads then NodeNames(heads[op.id].nodes) else []
  }

  function RestartedUpTo(worlds: seq<World>, ops: seq<Operation>, n: nat): seq<string>
    requires n <= |ops| < |worlds|
  {
    if n == 0 then [] else RestartedUpTo(worlds, ops, n - 1) + RestartedBy(ops[n - 1], worlds[n - 1].heads)
  }

  /** Over any row of whole operations Docker was told to restart exactly the containers of the heads that
      were restarted, in order, each as often as its head. */
  lemma {:induction false} RestartsAccountedFor(worlds: seq<World>, ops: seq<Operation>, limit: int, n: nat)
    requires RunOfOperations(worlds, ops, limit) && n <= |ops|
    ensures worlds[n].restarts == worlds[0].restarts + RestartedUpTo(worlds, ops, n)
  {
    if n > 0 {
      RestartsAccountedFor(worlds, ops, limit, n - 1);
      assert DoneAt(worlds, ops, limit, n - 1);
      Seqs.Assoc(worlds[0].restarts, RestartedUpTo(worlds, ops, n - 1), RestartedBy(ops[n - 1], worlds[n - 1].heads));
    }
  }

  /** What a status write must be able to show: `running` needs the answers that made all nodes ready. */
  ghost predicate Warranted(status: Status, cause: Cause, nodes: seq<Node>) {
    match cause
    case Creation => false
    case AllNodesReady(answers) => status == Running && WasReady(nodes, answers)
    case Stopping => status == Stop
  }

  /** Whether an activation is let through, and why not: the head is unknown, each of its nodes has a cache
      entry, or entries and nodes together exceed the limit, which is 20 where none or zero is set. */
  predicate Judged(reason: Option<Rejection>, id: nat, heads: Heads, cache: seq<Entry>, configured: Option<int>) {
    && (reason == Some(InvalidHeadId) <==> id !in heads)
    && (reason == Some(AlreadyStarted) <==> id in heads && !SomeUncached(heads[id].nodes, cache))
    && (reason == Some(LimitExceeded) <==>
          id in heads && SomeUncached(heads[id].nodes, cache) &&
          |cache| + |heads[id].nodes| > if configured.Some? && configured.value != 0 then configured.value else 20)
  }

  /** A rollback is clean unless the log of failed cleanups has grown since, and of the containers it had
      pushed only those are left that the log tells of. */
  predicate CleanedAsLogged(nodes: seq<Node>, r: Activation, cs: Containers, log: seq<string>, log': seq<string>)
    requires r.RolledBack?
  {
    log <= log' && (log' == log ==> r.cleaned) && OnlyFailedLeft(nodes, r.pushed, cs, log'[|log|..])
  }

  /** How an activation that was let through and prepared ends. */
  ghost predicate Launched(r: Activation, id: nat, answers: Answers, w: World, w': World, log: seq<string>,
                           log': seq<string>, dockerHealthy: bool, storeHealthy: bool) {
    id in w.heads &&
    var nodes := w.heads[id].nodes;
    && (r.Activated? ==> WentUp(id, answers, w, w'))
    && (r.RolledBack? ==>
          && WentDown(id, r.pushed, r.cleaned, r.stored, w, w')
          && CleanedAsLogged(nodes, r, w'.containers, log, log')
          && (dockerHealthy ==> r.cleaned && NoneLeft(nodes, r.pushed, w'.containers))
          && (storeHealthy ==> r.stored))
    && (dockerHealthy && storeHealthy ==> (r.Activated? <==> ReadyInTime(nodes, answers)))
  }

  lemma DeactivationDoes(id: nat, stored: bool, w: World, w': World, limit: int)
    requires id in w.heads && w'.restarts == w.restarts && w'.cache == w.cache
    requires w'.heads == if stored then w.heads[id := Head(Stop, w.heads[id].nodes)] else w.heads
    requires Cleared(w.containers, w'.containers, NamesOf(w.heads[id].nodes))
    ensures Does(Deactivate(id, stored), w, w', limit)
  {
  }

  lemma LaunchedDoes(r: Activation, id: nat, answers: Answers, w: World, w': World, log: seq<string>,
                     log': seq<string>, dockerHealthy: bool, storeHealthy: bool, limit: int)
    requires r.Activated? || r.RolledBack?
    requires Launched(r, id, answers, w, w', log, log', dockerHealthy, storeHealthy)
    requires w'.restarts == w.restarts && Admission(w.heads[id].nodes, w.cache, limit).None?
    ensures Does(ActivationOp(id, answers, r), w, w', limit)
  {
  }

  class HydraHeadService {
    const docker: DockerService
    const folder: string
    const maxActiveNodes: Option<int>

    var heads: Heads
    var nextHeadId: nat
    var nextNodeId: nat
    var events: seq<Event>
    var files: set<string>
    var storeHealthy: bool     // the database and the disk fail no call; set from outside
    var sourcesUp: bool        // the protocol parameters can be fetched; set from outside

    ghost var lastWrite: map<nat, Cause>
    ghost var portSteps: seq<Ports.Step>     // ports given out and given back, in order

    ghost predicate Valid()
      reads this, docker
    {
      && docker.Valid()
      && RowsOk(heads, nextHeadId, nextNodeId)
      && ContainersOk(docker.containers, heads, nextNodeId)
      && StatusesOk(heads, lastWrite)
      && PortsOk(heads, Ports.RunOf(portSteps)) && Ports.FreshIds(portSteps)
      && DistinctNodes(docker.activeNodes)
      && forall i :: 0 <= i < |docker.refreshes| ==> DistinctNodes(docker.refreshes[i])
    }

    constructor (docker: DockerService, folder: string, maxActiveNodes: Option<int>, storeHealthy: bool,
                 sourcesUp: bool)
      requires docker.Valid() && docker.containers == map[] && docker.activeNodes == [] && docker.refreshes == []
      ensures Valid() && this.docker == docker && this.folder == folder && this.maxActiveNodes == maxActiveNodes
      ensures heads == map[] && events == [] && files == {}
      ensures this.storeHealthy == storeHealthy && this.sourcesUp == sourcesUp
    {
      this.docker, this.folder, this.maxActiveNodes := docker, folder, maxActiveNodes;
      heads, nextHeadId, nextNodeId, events, files := map[], 1, 1, [], {};
      lastWrite, portSteps := map[], [];
      this.storeHealthy, this.sourcesUp := storeHealthy, sourcesUp;
    }

    // ---------- activation ----------

    method StartOne(headId: nat, node: Node) returns (created: Option<Handle>)
      requires docker.Valid()
      modifies docker`containers, docker`nextId, docker`creates, docker`clashes, docker`failedCleanups
      ensures docker.Valid() && docker.creates <= old(docker.creates) + 3
      ensures old(docker.failedCleanups) <= docker.failedCleanups
      ensures Started(old(docker.containers), docker.containers, headId, node)
      ensures created.Some? ==>
        created.value.ById? && created.value.name == NodeName(node.id) && NodeName(node.id) in docker.containers &&
        docker.containers[NodeName(node.id)] == Container(created.value.id, true, headId, node.id)
      ensures created.None? ==> Leftover(old(docker.containers), docker.containers, NodeName(node.id))
      ensures docker.healthy ==> created.Some?
      ensures docker.nextId >= old(docker.nextId) && (created.Some? ==> created.value.id >= old(docker.nextId))
    {
      var name := NodeName(node.id);
      docker.HandleDockerContainerExist(name);
      created := docker.CreateContainer(name, headId, node.id, 2);
    }

    /** One turn of the loop; cs0 is Docker as the loop found it. */
    method StartNext(headId: nat, nodes: seq<Node>, handles: seq<Handle>, ghost cs0: Containers)
      returns (created: Option<Handle>)
      requires docker.Valid() && DistinctIds(nodes) && |handles| < |nodes|
      requires Progress(cs0, docker.containers, headId, nodes, handles)
      modifies docker`containers, docker`nextId, docker`creates, docker`clashes, docker`failedCleanups
      ensures docker.Valid() && docker.creates <= old(docker.creates) + 3
      ensures old(docker.failedCleanups) <= docker.failedCleanups
      ensures created.Some? ==> Progress(cs0, docker.containers, headId, nodes, handles + [created.value])
      ensures created.None? ==> StoppedAt(cs0, docker.containers, headId, nodes, handles)
      ensures docker.healthy ==> created.Some?
      ensures docker.nextId >= old(docker.nextId)
      ensures created.Some? ==> created.value.ById? && created.value.id >= old(docker.nextId)
    {
      created := StartOne(headId, nodes[|handles|]);
      StartStep(cs0, old(docker.containers), docker.containers, headId, nodes, handles);
    }

    /** The loop of activeHydraHead. It stops at the first node whose container cannot be created or
        inspected; the handles are those pushed to createdContainers by then. */
    method StartContainers(headId: nat, nodes: seq<Node>) returns (handles: seq<Handle>, ok: bool)
      requires docker.Valid() && DistinctIds(nodes)
      modifies docker`containers, docker`nextId, docker`creates, docker`clashes, docker`failedCleanups
      ensures docker.Valid() && old(docker.failedCleanups) <= docker.failedCleanups
      ensures StoppedAt(old(docker.containers), docker.containers, headId, nodes, handles)
      ensures NewHandles(old(docker.containers), handles)
      ensures ok ==> |handles| == |nodes|
      ensures docker.healthy ==> ok
      ensures docker.creates <= old(docker.creates) + 3 * |nodes|
    {
      handles := [];
      while |handles| < |nodes|
        invariant docker.Valid() && old(docker.failedCleanups) <= docker.failedCleanups
        invariant Progress(old(docker.containers), docker.containers, headId, nodes, handles)
        invariant docker.creates <= old(docker.creates) + 3 * |handles|
        invariant docker.nextId >= old(docker.nextId) && NewHandles(old(docker.containers), handles)
        decreases |nodes| - |handles|
      {
        var created := StartNext(headId, nodes, handles, old(docker.containers));
        if created.None? {
          return handles, false;
        }
        OneMoreNew(old(docker.containers), handles, created.value, old(docker.nextId));
        handles := handles + [created.value];
        assert Resolves(docker.containers, handles[|handles| - 1]);
        var inspected := docker.ApiInspect(created.value);
        if !inspected.Found? {
          ProgressRest(old(docker.containers), docker.containers, headId, nodes, handles);
          return handles, false;
        }
      }
      ProgressRest(old(docker.containers), docker.containers, headId, nodes, handles);
      ok := true;
    }

    /** The catch block's cleanup of everything that was created: each container is tried, whatever happens
        to the others, so one that is still there is one whose own cleanup threw. */
    method CleanupAll(handles: seq<Handle>) returns (cleaned: bool)
      requires docker.Valid()
      modifies docker`containers, docker`failedCleanups
      ensures docker.Valid() && old(docker.failedCleanups) <= docker.failedCleanups
      ensures cleaned <==> docker.failedCleanups == old(docker.failedCleanups)
      ensures Cleared(old(docker.containers), docker.containers, HandleNames(handles))
      ensures StuckFailed(handles, docker.containers, docker.failedCleanups[|old(docker.failedCleanups)|..])
      ensures docker.healthy ==> cleaned
    {
      cleaned := true;
      for i := 0 to |handles|
        invariant docker.Valid() && old(docker.failedCleanups) <= docker.failedCleanups
        invariant cleaned <==> docker.failedCleanups == old(docker.failedCleanups)
        invariant Cleared(old(docker.containers), docker.containers, HandleNames(handles[..i]))
        invariant StuckFailed(handles[..i], docker.containers, docker.failedCleanups[|old(docker.failedCleanups)|..])
        invariant docker.healthy ==> cleaned
      {
        var before, failed := docker.containers, docker.failedCleanups;
        var ok := docker.CleanupContainer(handles[i]);
        cleaned := cleaned && ok;
        HandleNamesStep(handles, i);
        Seqs.AppendFrom(failed, if ok then [] else [handles[i].name], |old(docker.failedCleanups)|);
        StuckStep(handles, i, before, docker.containers, failed[|old(docker.failedCleanups)|..],
                  docker.failedCleanups[|old(docker.failedCleanups)|..]);
      }
      assert handles[..|handles|] == handles;
    }

    /** A status write, with the reason for it. One that throws changes nothing. */
    method WriteStatus(id: nat, status: Status, ghost cause: Cause, throws: bool) returns (saved: bool)
      requires Valid() && id in heads && Warranted(status, cause, heads[id].nodes)
      modifies `heads, `lastWrite
      ensures Valid()
      ensures saved <==> storeHealthy || !throws
      ensures heads == if saved then old(heads)[id := old(heads)[id].(status := status)] else old(heads)
      ensures lastWrite == if saved then old(lastWrite)[id := cause] else old(lastWrite)
    {
      saved := storeHealthy || !throws;
      if saved {
        heads := heads[id := heads[id].(status := status)];
        lastWrite := lastWrite[id := cause];
        SameNodesKeepRows(old(heads), heads, nextHeadId, nextNodeId, docker.containers, Ports.RunOf(portSteps));
      }
    }

    /** Write the status, then emit the event that carries all nodes. */
    method Announce(id: nat, status: Status, ghost cause: Cause) returns (saved: bool)
      requires Valid() && id in heads && Warranted(status, cause, heads[id].nodes)
      modifies `heads, `lastWrite, `events
      ensures Valid()
      ensures storeHealthy ==> saved
      ensures !saved ==> heads == old(heads) && lastWrite == old(lastWrite) && events == old(events)
      ensures saved ==>
        && heads == old(heads)[id := Head(status, old(heads)[id].nodes)]
        && lastWrite == old(lastWrite)[id := cause]
        && events == old(events) + [HeadEvent(id, status, Some(NodeIdList(old(heads)[id].nodes)))]
    {
      var throws: bool := *;
      saved := WriteStatus(id, status, cause, throws);
      if saved {
        events := events + [HeadEvent(id, status, Some(NodeIdList(heads[id].nodes)))];
      }
    }

    /** Fetching protocol parameters, writing them and finding the network: any of it may throw. */
    method Prepare(id: nat) returns (ok: bool)
      modifies `files
      ensures files == old(files) || files == old(files) + {ProtocolFile(id, folder)}
      ensures ok ==> ProtocolFile(id, folder) in files
      ensures sourcesUp && storeHealthy && docker.healthy ==> ok
    {
      var written: bool := *;
      if !(written || (sourcesUp && storeHealthy)) {
        return false;
      }
      files := files + {ProtocolFile(id, folder)};
      ok := *;
      ok := ok || docker.healthy;
    }

    ghost function Now(): World
      reads this, docker
    {
      World(heads, events, docker.containers, docker.activeNodes, docker.restarts)
    }

    method CacheStarted(id: nat, nodes: seq<Node>, handles: seq<Handle>) returns (cached: bool)
      requires Valid() && DistinctIds(nodes) && UpTo(docker.containers, id, nodes, handles) && |handles| == |nodes|
      modifies docker`activeNodes
      ensures Valid()
      ensures docker.healthy ==> cached
      ensures cached ==> NodeIds(docker.activeNodes) == NodeIds(old(docker.activeNodes)) + IdsOf(nodes)
      ensures !cached ==> docker.activeNodes == old(docker.activeNodes)
    {
      cached := docker.CacheActiveNodes(handles);
      if cached {
        EntriesOfNodes(docker.containers, id, nodes, handles);
        MergeFacts(old(docker.activeNodes), EntriesOf(docker.containers, handles));
      }
    }

    /** The try block up to the wait: all containers created, seen running and cached. */
    method StartAndCache(id: nat, nodes: seq<Node>) returns (handles: seq<Handle>, cached: bool)
      requires Valid() && id in heads && heads[id].nodes == nodes
      modifies docker`containers, docker`nextId, docker`creates, docker`clashes, docker`failedCleanups
      modifies docker`activeNodes
      ensures Valid() && old(docker.failedCleanups) <= docker.failedCleanups
      ensures docker.healthy ==> cached && |handles| == |nodes|
      ensures UpTo(docker.containers, id, nodes, handles)
      ensures RestKept(old(docker.containers), docker.containers, nodes, |handles|)
      ensures NewHandles(old(docker.containers), handles)
      ensures cached ==>
        |handles| == |nodes| && NodeIds(docker.activeNodes) == NodeIds(old(docker.activeNodes)) + IdsOf(nodes)
      ensures !cached ==> docker.activeNodes == old(docker.activeNodes)
    {
      handles, cached := StartContainers(id, nodes);
      StartedContainersOk(old(docker.containers), docker.containers, heads, nextHeadId, nextNodeId, id);
      if !cached {
        return;
      }
      cached := CacheStarted(id, nodes, handles);
    }

    /** The try block up to the status write. */
    method BringUp(id: nat, nodes: seq<Node>, answers: Answers) returns (handles: seq<Handle>, ready: bool)
      requires Valid() && id in heads && heads[id].nodes == nodes
      modifies docker`containers, docker`nextId, docker`creates, docker`clashes, docker`failedCleanups
      modifies docker`activeNodes
      ensures Valid() && old(docker.failedCleanups) <= docker.failedCleanups
      ensures docker.healthy ==> |handles| == |nodes| && (ready <==> ReadyInTime(nodes, answers))
      ensures HalfWay(id, handles, old(Now()), Now())
      ensures ready ==> AllUp(old(docker.containers), docker.containers, nodes) && ReadyInTime(nodes, answers)
      ensures ready ==> NodeIds(docker.activeNodes) == NodeIds(old(docker.activeNodes)) + IdsOf(nodes)
    {
      var cached: bool;
      handles, cached := StartAndCache(id, nodes);
      if !cached {
        return handles, false;
      }
      IntervalRunsOut(TIMEOUT_NODE_READY_MS, POLL_INTERVAL_NODE_READY_MS, answers);
      var unready, _, _ := WaitForAllNodesReady(nodes, TIMEOUT_NODE_READY_MS, POLL_INTERVAL_NODE_READY_MS, answers);
      ready := unready.None?;
      AllStarted(old(docker.containers), docker.containers, id, nodes, handles);
    }

    /** The catch block's cleanup; before is Docker as the activation found it. */
    method TakeDown(id: nat, nodes: seq<Node>, handles: seq<Handle>, ghost before: Containers) returns (cleaned: bool)
      requires Valid() && id in heads && heads[id].nodes == nodes
      requires UpTo(docker.containers, id, nodes, handles)
      requires RestKept(before, docker.containers, nodes, |handles|)
      modifies docker`containers, docker`failedCleanups
      ensures Valid() && old(docker.failedCleanups) <= docker.failedCleanups
      ensures SameOutside(before, docker.containers, NamesOf(nodes))
      ensures cleaned ==> RolledBackClean(before, docker.containers, nodes, |handles|)
      ensures cleaned ==> HandleNames(handles) !! docker.containers.Keys
      ensures cleaned <==> docker.failedCleanups == old(docker.failedCleanups)
      ensures OnlyFailedLeft(nodes, |handles|, docker.containers,
                             docker.failedCleanups[|old(docker.failedCleanups)|..])
      ensures docker.healthy ==> cleaned
    {
      cleaned := CleanupAll(handles);
      ContainersOkKept(old(docker.containers), docker.containers, heads, nextHeadId, nextNodeId, id);
      StuckByName(id, nodes, handles, old(docker.containers), docker.containers,
                  docker.failedCleanups[|old(docker.failedCleanups)|..]);
      TakenDown(before, old(docker.containers), docker.containers, id, nodes, handles, cleaned);
    }

    /** The catch block of activeHydraHead; before is the world as the activation found it, and log what had
        been logged of failed cleanups by some earlier moment. */
    method RollBack(id: nat, handles: seq<Handle>, ghost before: World, ghost log: seq<string>)
      returns (r: Activation)
      requires Valid() && HalfWay(id, handles, before, Now()) && log <= docker.failedCleanups
      modifies docker`containers, docker`failedCleanups, `heads, `lastWrite, `events
      ensures Valid() && r.RolledBack? && r.pushed == |handles|
      ensures WentDown(id, r.pushed, r.cleaned, r.stored, before, Now())
      ensures r.cleaned <==> docker.failedCleanups == old(docker.failedCleanups)
      ensures CleanedAsLogged(before.heads[id].nodes, r, docker.containers, log, docker.failedCleanups)
      ensures docker.healthy && |handles| == |heads[id].nodes| ==>
        NoneLeft(heads[id].nodes, r.pushed, docker.containers)
      ensures (docker.healthy ==> r.cleaned) && (storeHealthy ==> r.stored)
    {
      var cleaned := TakeDown(id, heads[id].nodes, handles, before.containers);
      LeftFailedEarlier(heads[id].nodes, |handles|, docker.containers, docker.failedCleanups, |log|,
                        |old(docker.failedCleanups)|);
      assert heads[id].nodes[..|heads[id].nodes|] == heads[id].nodes;
      var stored := Announce(id, Stop, Stopping);
      return RolledBack(|handles|, cleaned, stored);
    }

    /** The try and catch blocks of activeHydraHead. Should the write of `running` throw, the call is
        rolled back like any other; should the write of `stop` throw, no event goes out. */
    method Launch(id: nat, answers: Answers) returns (r: Activation)
      requires Valid() && id in heads && heads[id].nodes != []
      modifies docker`containers, docker`nextId, docker`creates, docker`clashes, docker`failedCleanups
      modifies docker`activeNodes, `heads, `lastWrite, `events
      ensures Valid() && StatusMoves(old(heads), heads)
      ensures r.Activated? || r.RolledBack?
      ensures Launched(r, id, answers, old(Now()), Now(), old(docker.failedCleanups), docker.failedCleanups,
                       docker.healthy, storeHealthy)
    {
      var handles, ready := BringUp(id, heads[id].nodes, answers);
      if ready {
        var saved := Announce(id, Running, AllNodesReady(answers));
        if saved {
          OutcomeMoves(id, answers, Activated, old(Now()), Now());
          return Activated;
        }
      }
      r := RollBack(id, handles, old(Now()), old(docker.failedCleanups));
      OutcomeMoves(id, answers, r, old(Now()), Now());
    }

    /** What activeHydraHead checks before it touches anything. */
    method Judge(id: nat) returns (reason: Option<Rejection>)
      ensures Judged(reason, id, heads, docker.activeNodes, maxActiveNodes)
      ensures id in heads && reason.None? ==>
        Admission(heads[id].nodes, docker.activeNodes, Limit(maxActiveNodes)).None?
      ensures id in heads && IdsOf(heads[id].nodes) <= NodeIds(docker.activeNodes) ==> reason == Some(AlreadyStarted)
    {
      if id !in heads {
        return Some(InvalidHeadId);
      }
      reason := CheckNodesActive(heads[id].nodes, docker.activeNodes, Limit(maxActiveNodes));
      AdmissionExact(heads[id].nodes, docker.activeNodes, Limit(maxActiveNodes));
      StartedIffIdsCached(heads[id].nodes, docker.activeNodes, Limit(maxActiveNodes));
    }

    /** What activeHydraHead does once it has let the call through. */
    method Proceed(id: nat, answers: Answers) returns (r: Activation)
      requires Valid() && id in heads && heads[id].nodes != []
      modifies `heads, `lastWrite, `events, `files
      modifies docker`containers, docker`nextId, docker`creates, docker`clashes, docker`failedCleanups
      modifies docker`activeNodes
      ensures Valid() && StatusMoves(old(heads), heads)
      ensures !r.Rejected?
      ensures sourcesUp && storeHealthy && docker.healthy ==> !r.NotPrepared?
      ensures r.NotPrepared? ==> unchanged(docker) && Now() == old(Now())
      ensures r.Activated? || r.RolledBack? ==>
        Launched(r, id, answers, old(Now()), Now(), old(docker.failedCleanups), docker.failedCleanups,
                 docker.healthy, storeHealthy)
    {
      var prepared := Prepare(id);
      if !prepared {
        return NotPrepared;
      }
      r := Launch(id, answers);
    }

    /** activeHydraHead. Either nothing but the head's directory was touched, or the head is running
        with all its nodes up and cached, or it is rolled back and stopped. */
    method ActivateHead(id: nat, answers: Answers) returns (r: Activation)
      requires Valid()
      modifies `heads, `lastWrite, `events, `files
      modifies docker`containers, docker`nextId, docker`creates, docker`clashes, docker`failedCleanups
      modifies docker`activeNodes
      ensures Valid() && StatusMoves(old(heads), heads)
      ensures Judged(if r.Rejected? then Some(r.reason) else None, id, old(heads), old(docker.activeNodes),
                     maxActiveNodes)
      ensures id in old(heads) && IdsOf(old(heads)[id].nodes) <= NodeIds(old(docker.activeNodes)) ==>
        r == Rejected(AlreadyStarted)
      ensures sourcesUp && storeHealthy && docker.healthy ==> !r.NotPrepared?
      ensures r.Rejected? || r.NotPrepared? ==> unchanged(docker) && Now() == old(Now())
      ensures r.Activated? || r.RolledBack? ==>
        Launched(r, id, answers, old(Now()), Now(), old(docker.failedCleanups), docker.failedCleanups,
                 docker.healthy, storeHealthy)
      ensures Does(ActivationOp(id, answers, r), old(Now()), Now(), Limit(maxActiveNodes))
    {
      var rejection := Judge(id);
      if rejection.Some? {
        return Rejected(rejection.value);
      }
      r := Proceed(id, answers);
      if !r.NotPrepared? {
        LaunchedDoes(r, id, answers, old(Now()), Now(), old(docker.failedCleanups), docker.failedCleanups,
                     docker.healthy, storeHealthy, Limit(maxActiveNodes));
      }
    }

    // ---------- the cron refresh of the cache ----------

    method RefreshLists()
      requires Valid()
      modifies docker`refreshes
      ensures Valid()
      ensures |docker.refreshes| == |old(docker.refreshes)| + 1
      ensures (!docker.healthy && docker.refreshes[|old(docker.refreshes)|] == []) ||
              NodeIds(docker.refreshes[|old(docker.refreshes)|]) == RunningIds(docker.containers)
      ensures Does(Idle, old(Now()), Now(), Limit(maxActiveNodes))
    {
      docker.UpdateHydraContainerStatus();
      ContainersAreLabelled(docker.containers, heads, nextNodeId);
      var snapshot := docker.refreshes[|old(docker.refreshes)|];
      if docker.healthy || snapshot != [] {
        ghost var listing :| IsListing(listing, docker.containers) && snapshot == ActiveNodes(listing);
        ActiveNodesOfListing(listing, docker.containers);
      }
      forall i | 0 <= i < |docker.refreshes| ensures DistinctNodes(docker.refreshes[i]) {
        if i < |old(docker.refreshes)| {
          assert docker.refreshes[i] == docker.refreshes[..|old(docker.refreshes)|][i] == old(docker.refreshes)[i];
        }
      }
    }

    method RefreshWrites(i: nat)
      requires Valid() && i < |docker.refreshes|
      modifies docker`activeNodes, docker`refreshes
      ensures Valid()
      ensures docker.activeNodes == old(docker.refreshes)[i]
      ensures Does(CacheWrite(old(docker.refreshes)[i]), old(Now()), Now(), Limit(maxActiveNodes))
    {
      docker.FinishRefresh(i);
    }

    // ---------- list ----------

    method List() returns (active: map<nat, bool>)
      requires Valid()
      ensures active.Keys == heads.Keys
      ensures forall h :: h in heads ==> active[h] == IsActive(docker.activeNodes, h, heads[h].nodes)
      ensures forall h :: h in heads ==>
        (active[h] <==>
         heads[h].nodes != [] && forall n :: n in heads[h].nodes ==> HasEntry(docker.activeNodes, h, n.id))
      ensures forall listing :: IsListing(listing, docker.containers) && docker.activeNodes == ActiveNodes(listing) ==>
                forall h :: h in heads ==>
                  (active[h] <==> heads[h].nodes != [] && AllRun(docker.containers, heads[h].nodes))
    {
      active := map h | h in heads :: IsActive(docker.activeNodes, h, heads[h].nodes);
      forall listing, h |
        IsListing(listing, docker.containers) && docker.activeNodes == ActiveNodes(listing) && h in heads
        ensures active[h] <==> heads[h].nodes != [] && AllRun(docker.containers, heads[h].nodes)
      {
        ActiveIffAllRun(listing, docker.containers, heads, nextHeadId, nextNodeId, h);
      }
    }

    // ---------- deactivation ----------

    /** Best-effort removal of the containers of all the nodes. */
    method RemoveAll(nodes: seq<Node>)
      requires docker.Valid()
      modifies docker`containers
      ensures docker.Valid()
      ensures Cleared(old(docker.containers), docker.containers, NamesOf(nodes))
      ensures docker.healthy ==> NamesOf(nodes) !! docker.containers.Keys
    {
      for i := 0 to |nodes|
        invariant docker.Valid()
        invariant Cleared(old(docker.containers), docker.containers, NamesOf(nodes[..i]))
        invariant docker.healthy ==> NamesOf(nodes[..i]) !! docker.containers.Keys
      {
        var before := docker.containers;
        docker.RemoveContainerByName(NodeName(nodes[i].id));
        ClearedStep(old(docker.containers), before, docker.containers, nodes, i);
        NamesOfStep(nodes, i);
      }
      assert nodes[..|nodes|] == nodes;
    }

    method RemoveContainersOf(id: nat)
      requires Valid() && id in heads
      modifies docker`containers
      ensures Valid()
      ensures Cleared(old(docker.containers), docker.containers, NamesOf(heads[id].nodes))
      ensures docker.healthy ==> NamesOf(heads[id].nodes) !! docker.containers.Keys
    {
      var nodes := heads[id].nodes;
      RemoveAll(nodes);
      ClearedContainersOk(old(docker.containers), docker.containers, NamesOf(nodes), heads, nextHeadId, nextNodeId);
    }

    /** What deactiveHydraHead does to a head it knows: the containers go, then `stop` is written and a
        refresh started, or the write throws. */
    method TearDown(id: nat) returns (saved: bool)
      requires Valid() && id in heads
      modifies `heads, `lastWrite, docker`containers, docker`refreshes
      ensures Valid()
      ensures Cleared(old(docker.containers), docker.containers, NamesOf(old(heads)[id].nodes))
      ensures docker.healthy ==> NamesOf(old(heads)[id].nodes) !! docker.containers.Keys
      ensures storeHealthy ==> saved
      ensures !saved ==> heads == old(heads) && docker.refreshes == old(docker.refreshes)
      ensures saved ==>
        heads == old(heads)[id := Head(Stop, old(heads)[id].nodes)] &&
        |docker.refreshes| == |old(docker.refreshes)| + 1
      ensures saved && docker.healthy ==>
        NodeIds(docker.refreshes[|old(docker.refreshes)|]) == RunningIds(docker.containers)
    {
      RemoveContainersOf(id);
      var throws: bool := *;
      saved := WriteStatus(id, Stop, Stopping, throws);
      if saved {
        RefreshLists();
      }
    }

    /** deactiveHydraHead: the head ends up stopped, no event is emitted, and the cache keeps its
        entries until the refresh started here writes. If the write of `stop` throws, the containers are
        gone all the same and no refresh is started. */
    method DeactivateHead(id: nat) returns (r: Deactivation)
      requires Valid()
      modifies `heads, `lastWrite, docker`containers, docker`refreshes
      ensures Valid() && StatusMoves(old(heads), heads)
      ensures r.UnknownHead? <==> id !in old(heads)
      ensures r.UnknownHead? ==> unchanged(this) && unchanged(docker)
      ensures storeHealthy ==> !r.NotStored?
      ensures !r.UnknownHead? ==> Cleared(old(docker.containers), docker.containers, NamesOf(old(heads)[id].nodes))
      ensures !r.UnknownHead? && docker.healthy ==> NamesOf(old(heads)[id].nodes) !! docker.containers.Keys
      ensures r.NotStored? ==> heads == old(heads) && docker.refreshes == old(docker.refreshes)
      ensures r.Deactivated? ==>
        heads == old(heads)[id := Head(Stop, old(heads)[id].nodes)] &&
        |docker.refreshes| == |old(docker.refreshes)| + 1
      ensures r.Deactivated? && docker.healthy ==>
        NodeIds(docker.refreshes[|old(docker.refreshes)|]) == RunningIds(docker.containers)
      ensures Does(DeactivationOp(id, r), old(Now()), Now(), Limit(maxActiveNodes))
    {
      if id !in heads {
        return UnknownHead;
      }
      var saved := TearDown(id);
      DeactivationDoes(id, saved, old(Now()), Now(), Limit(maxActiveNodes));
      if !saved {
        return NotStored;
      }
      return Deactivated;
    }

    // ---------- restart ----------

    method RestartAll(nodes: seq<Node>)
      requires docker.Valid()
      modifies docker`containers, docker`restarts
      ensures docker.Valid() && docker.restarts == old(docker.restarts) + NodeNames(nodes)
      ensures Bounced(old(docker.containers), docker.containers, NamesOf(nodes))
      ensures docker.healthy && NamesOf(nodes) <= old(docker.containers).Keys ==> AllRun(docker.containers, nodes)
    {
      for i := 0 to |nodes|
        invariant docker.Valid() && docker.restarts == old(docker.restarts) + NodeNames(nodes[..i])
        invariant BouncedUpTo(old(docker.containers), docker.containers, nodes, i, docker.healthy)
      {
        var before := docker.containers;
        docker.RestartContainerByName(NodeName(nodes[i].id));
        BouncedUpToStep(old(docker.containers), before, docker.containers, nodes, i, docker.healthy);
        NodeNamesStep(nodes, i);
      }
      assert nodes[..|nodes|] == nodes;
    }

    method CacheRestarted(id: nat, nodes: seq<Node>) returns (ok: bool)
      requires Valid() && id in heads && heads[id].nodes == nodes
      modifies docker`activeNodes
      ensures Valid()
      ensures ok ==> AllRun(docker.containers, nodes)
      ensures docker.healthy && AllRun(docker.containers, nodes) ==> ok
      ensures NodeIds(old(docker.activeNodes)) <= NodeIds(docker.activeNodes) <=
              NodeIds(old(docker.activeNodes)) + IdsOf(nodes)
    {
      var handles := seq(|nodes|, i requires 0 <= i < |nodes| => ByName(NodeName(nodes[i].id)));
      ok := docker.CacheActiveNodes(handles);
      if ok {
        forall i | 0 <= i < |nodes|
          ensures Runs(docker.containers, nodes[i].id) && handles[i].name in docker.containers
        {
          assert handles[i] in handles;
        }
        BouncedEntries(docker.containers, heads, nextNodeId, nodes, handles);
        MergeFacts(old(docker.activeNodes), EntriesOf(docker.containers, handles));
      }
    }

    /** The try block of restart. */
    method BounceAll(id: nat, nodes: seq<Node>, answers: Answers) returns (ok: bool)
      requires Valid() && id in heads && heads[id].nodes == nodes
      modifies docker`containers, docker`restarts, docker`activeNodes
      ensures Valid() && docker.restarts == old(docker.restarts) + NodeNames(nodes)
      ensures docker.healthy && NamesOf(nodes) <= old(docker.containers).Keys ==>
        AllRun(docker.containers, nodes) && (ok <==> ReadyInTime(nodes, answers))
      ensures Bounced(old(docker.containers), docker.containers, NamesOf(nodes))
      ensures ok ==> AllRun(docker.containers, nodes) && ReadyInTime(nodes, answers)
      ensures NodeIds(old(docker.activeNodes)) <= NodeIds(docker.activeNodes) <=
              NodeIds(old(docker.activeNodes)) + IdsOf(nodes)
    {
      RestartAll(nodes);
      BouncedContainersOk(old(docker.containers), docker.containers, NamesOf(nodes), heads, nextHeadId, nextNodeId);
      var cached := CacheRestarted(id, nodes);
      if !cached {
        return false;
      }
      IntervalRunsOut(TIMEOUT_NODE_READY_MS, POLL_INTERVAL_NODE_READY_MS, answers);
      var unready, _, _ := WaitForAllNodesReady(nodes, TIMEOUT_NODE_READY_MS, POLL_INTERVAL_NODE_READY_MS, answers);
      ok := unready.None?;
    }

    /** checkContainerRunning for each node until one is not seen running. */
    method SeenRunning(nodes: seq<Node>) returns (all: bool)
      ensures all ==> AllRun(docker.containers, nodes)
      ensures docker.healthy && AllRun(docker.containers, nodes) ==> all
    {
      for i := 0 to |nodes|
        invariant forall j :: 0 <= j < i ==> Runs(docker.containers, nodes[j].id)
      {
        var running := docker.CheckContainerRunning(NodeName(nodes[i].id));
        if !running {
          return false;
        }
      }
      return true;
    }

    method StopUnlessRunning(id: nat) returns (stored: bool)
      requires Valid() && id in heads
      modifies `heads, `lastWrite
      ensures Valid()
      ensures storeHealthy ==> stored
      ensures StopUnless(stored, AllRun(docker.containers, old(heads)[id].nodes), id, old(heads), heads)
      ensures docker.healthy && AllRun(docker.containers, old(heads)[id].nodes) ==> stored && heads == old(heads)
    {
      var allRun := SeenRunning(heads[id].nodes);
      stored := true;
      if !allRun {
        var throws: bool := *;
        stored := WriteStatus(id, Stop, Stopping, throws);
      }
    }

    /** The end of restart's try block, or its catch block; stored is false when the latter throws itself. */
    method Settle(id: nat, ok: bool) returns (stored: bool)
      requires Valid() && id in heads && (ok ==> AllRun(docker.containers, heads[id].nodes))
      modifies `heads, `lastWrite, `events
      ensures Valid()
      ensures storeHealthy || ok ==> stored
      ensures ok ==> heads == old(heads) && lastWrite == old(lastWrite)
      ensures StopUnless(stored, AllRun(docker.containers, old(heads)[id].nodes), id, old(heads), heads)
      ensures docker.healthy && AllRun(docker.containers, old(heads)[id].nodes) ==> stored && heads == old(heads)
      ensures events == old(events) + if stored then [HeadEvent(id, old(heads)[id].status, None)] else []
    {
      var status := heads[id].status;
      stored := true;
      if !ok {
        stored := StopUnlessRunning(id);
      }
      if stored {
        events := events + [HeadEvent(id, status, None)];
      }
    }

    /** The try and catch blocks of restart. */
    method Bounce(id: nat, answers: Answers) returns (ok: bool, stored: bool)
      requires Valid() && id in heads && InactiveNames(docker.activeNodes, id, heads[id].nodes) == []
      modifies `heads, `lastWrite, `events, docker`containers, docker`restarts, docker`activeNodes
      ensures Valid()
      ensures CameBack(id, answers, ok, stored, docker.healthy, old(Now()), Now())
      ensures storeHealthy ==> stored
      ensures ok ==> lastWrite == old(lastWrite)
    {
      ActiveAreCached(docker.activeNodes, id, heads[id].nodes);
      ok := BounceAll(id, heads[id].nodes, answers);
      assert NodeIds(docker.activeNodes) == NodeIds(old(docker.activeNodes));
      stored := Settle(id, ok);
    }

    /** restart: only a head whose nodes all have an active cache entry is touched. */
    method RestartHead(id: nat, answers: Answers) returns (r: Restart)
      requires Valid()
      modifies `heads, `lastWrite, `events, docker`containers, docker`restarts, docker`activeNodes
      ensures Valid() && StatusMoves(old(heads), heads)
      ensures r.NoSuchHead? <==> id !in old(heads)
      ensures r.NotAllActive? <==>
        id in old(heads) && InactiveNames(old(docker.activeNodes), id, old(heads)[id].nodes) != []
      ensures r.NotAllActive? ==> r.names == InactiveNames(old(docker.activeNodes), id, old(heads)[id].nodes)
      ensures r.NoSuchHead? || r.NotAllActive? ==> unchanged(this) && unchanged(docker)
      ensures r.Restarted? ==>
        CameBack(id, answers, true, true, docker.healthy, old(Now()), Now()) && lastWrite == old(lastWrite)
      ensures r.RestartFailed? ==> CameBack(id, answers, false, r.stored, docker.healthy, old(Now()), Now())
      ensures r.RestartFailed? && storeHealthy ==> r.stored
      ensures Does(RestartOp(id, answers, docker.healthy, r), old(Now()), Now(), Limit(maxActiveNodes))
    {
      if id !in heads {
        return NoSuchHead;
      }
      var inactive := InactiveNames(docker.activeNodes, id, heads[id].nodes);
      if inactive != [] {
        return NotAllActive(inactive);
      }
      var ok, stored := Bounce(id, answers);
      StopUnlessMoves(stored, AllRun(docker.containers, old(heads)[id].nodes), id, old(heads), heads);
      return if ok then Restarted else RestartFailed(stored);
    }

    // ---------- the health sweep ----------

    method StoppedNodes(nodes: seq<Node>) returns (stopped: seq<nat>)
      ensures forall id :: id in IdsOf(nodes) && !Runs(docker.containers, id) ==> id in stopped
      ensures forall id :: id in stopped ==> id in IdsOf(nodes)
      ensures docker.healthy ==> forall id :: id in stopped ==> !Runs(docker.containers, id)
    {
      stopped := [];
      for i := 0 to |nodes|
        invariant forall id :: id in stopped ==> id in IdsOf(nodes)
        invariant docker.healthy ==> forall id :: id in stopped ==> !Runs(docker.containers, id)
        invariant forall j :: 0 <= j < i && !Runs(docker.containers, nodes[j].id) ==> nodes[j].id in stopped
      {
        var running := docker.CheckContainerRunning(NodeName(nodes[i].id));
        if !running {
          stopped := stopped + [nodes[i].id];
        }
      }
    }

    /** One head of the sweep; an update that throws is caught, and the head is left as it was. Every node
        that does not run is among those it reports. */
    method SweepHead(h: nat, throws: bool) returns (stopped: seq<nat>, saved: bool)
      requires Valid() && h in heads && heads[h].status == Running
      modifies `heads, `lastWrite, `events
      ensures Valid()
      ensures saved <==> stopped == [] || storeHealthy || !throws
      ensures saved ==> SweptOne(old(heads), heads, docker.containers, h, docker.healthy)
      ensures stopped == [] || !saved ==> heads == old(heads) && events == old(events)
      ensures stopped != [] && saved ==>
        heads == old(heads)[h := Head(Stop, old(heads)[h].nodes)] &&
        events == old(events) + [HeadEvent(h, Stop, Some(stopped))]
      ensures forall id :: id in IdsOf(old(heads)[h].nodes) && !Runs(docker.containers, id) ==> id in stopped
      ensures forall id :: id in stopped ==> id in IdsOf(old(heads)[h].nodes)
      ensures docker.healthy ==> forall id :: id in stopped ==> !Runs(docker.containers, id)
    {
      stopped := StoppedNodes(heads[h].nodes);
      saved := true;
      if |stopped| > 0 {
        assert stopped[0] in stopped;
        saved := WriteStatus(h, Stop, Stopping, throws);
        if saved {
          events := events + [HeadEvent(h, Stop, Some(stopped))];
        }
      }
    }

    /** One turn of the sweep's loop; heads0 is the table as the sweep found it. */
    method SweepNext(ghost heads0: Heads, left: set<nat>, failed: set<nat>, h: nat, throws: set<nat>)
      returns (failed': set<nat>)
      requires Valid() && failed <= throws && AllStoredRunning(heads, left) && h in left
      requires SweepState(heads0, heads, docker.containers, left + failed, docker.healthy)
      modifies `heads, `lastWrite, `events
      ensures Valid() && AllStoredRunning(heads, left - {h})
      ensures SweepState(heads0, heads, docker.containers, left - {h} + failed', docker.healthy)
      ensures failed' <= throws && (storeHealthy ==> failed' == failed)
      ensures old(events) <= events
    {
      var _, saved := SweepHead(h, h in throws);
      if saved {
        SweepStep(heads0, old(heads), heads, docker.containers, left, failed, h, docker.healthy);
        return failed;
      }
      assert left + failed == left - {h} + (failed + {h});
      return failed + {h};
    }

    /** The loop of the sweep over the heads found running. */
    method SweepHeads(running: set<nat>, throws: set<nat>) returns (failed: set<nat>)
      requires Valid() && AllStoredRunning(heads, running)
      requires SweepState(heads, heads, docker.containers, running, docker.healthy)
      modifies `heads, `lastWrite, `events
      ensures Valid()
      ensures SweepState(old(heads), heads, docker.containers, failed, docker.healthy)
      ensures failed <= throws && (storeHealthy ==> failed == {})
      ensures old(events) <= events
    {
      failed := {};
      var left := running;
      assert left + failed == running;
      while left != {}
        invariant Valid()
        invariant AllStoredRunning(heads, left)
        invariant SweepState(old(heads), heads, docker.containers, left + failed, docker.healthy)
        invariant failed <= throws && (storeHealthy ==> failed == {})
        invariant old(events) <= events
        decreases left
      {
        var h :| h in left;
        failed := SweepNext(old(heads), left, failed, h, throws);
        left := left - {h};
      }
    }

    /** checkNodeHealth, where throws holds the heads whose update throws this time. After a sweep, with
        nothing happening to Docker meanwhile, every head still stored as running has all its containers
        running, or its own update threw; a head only ever goes to stop. */
    method CheckNodeHealth(throws: set<nat>) returns (swept: bool, failed: set<nat>)
      requires Valid()
      modifies `heads, `lastWrite, `events
      ensures Valid() && StatusMoves(old(heads), heads)
      ensures !swept ==> heads == old(heads) && events == old(events)
      ensures swept ==> RunningSwept(heads, docker.containers, failed)
      ensures failed <= throws && (storeHealthy ==> swept && failed == {})
      ensures docker.healthy ==> OnlyDeadStopped(old(heads), heads, docker.containers)
      ensures OnlyStopped(old(heads), heads)
      ensures old(events) <= events
      ensures Does(Sweep, old(Now()), Now(), Limit(maxActiveNodes))
    {
      swept, failed := *, {};
      swept := swept || storeHealthy;
      if swept {
        var running := set h | h in heads && heads[h].status == Running;
        failed := SweepHeads(running, throws);
      }
    }

    // ---------- deletion ----------

    method RemoveHeadDir(id: nat)
      modifies `files
      ensures storeHealthy ==> files == RemoveTree(old(files), HeadDir(id, folder))
      ensures files == old(files) || files == RemoveTree(old(files), HeadDir(id, folder))
      ensures OthersKeepFiles(old(files), files, id, folder)
    {
      var accessible: bool := *;
      if !(accessible || storeHealthy) {
        return;
      }
      files := RemoveTree(files, HeadDir(id, folder));
      forall other: nat, p | other != id && p in old(files) && Under(p, HeadDir(other, folder)) ensures p in files {
        RemoveHeadTree(old(files), id, other, folder, p);
      }
    }

    method RemoveRows(id: nat) returns (committed: bool)
      requires Valid() && id in heads
      modifies `heads, `lastWrite, `portSteps
      ensures Valid() && StatusMoves(old(heads), heads)
      ensures heads == if committed then old(heads) - {id} else old(heads)
      ensures storeHealthy ==> committed
    {
      committed := *;
      committed := committed || storeHealthy;
      if committed {
        RowsWithout(heads, id, nextHeadId, nextNodeId, docker.containers, lastWrite, portSteps);
        Ports.OneMoreFresh(portSteps, Ports.Delete(IdsOf(heads[id].nodes)));
        portSteps := portSteps + [Ports.Delete(IdsOf(heads[id].nodes))];
        heads := heads - {id};
        lastWrite := lastWrite - {id};
      }
    }

    /** delete: containers and directory best-effort, then the rows in one transaction. */
    method DeleteHead(id: nat) returns (r: Deletion)
      requires Valid()
      modifies `heads, `lastWrite, `portSteps, `files, docker`containers
      ensures Valid() && StatusMoves(old(heads), heads)
      ensures r.NothingToDelete? <==> id !in old(heads)
      ensures r.NothingToDelete? ==> unchanged(this) && docker.containers == old(docker.containers)
      ensures r.RowsRemain? ==> heads == old(heads)
      ensures r.Deleted? ==> heads == old(heads) - {id}
      ensures !r.NothingToDelete? ==>
        Cleared(old(docker.containers), docker.containers, NamesOf(old(heads)[id].nodes))
      ensures docker.healthy && !r.NothingToDelete? ==> NamesOf(old(heads)[id].nodes) !! docker.containers.Keys
      ensures files == old(files) || files == RemoveTree(old(files), HeadDir(id, folder))
      ensures storeHealthy && !r.NothingToDelete? ==> r.Deleted? && files == RemoveTree(old(files), HeadDir(id, folder))
      ensures OthersKeepFiles(old(files), files, id, folder)
      ensures Does(DeletionOp(id, r), old(Now()), Now(), Limit(maxActiveNodes))
    {
      if id !in heads {
        return NothingToDelete;
      }
      RemoveContainersOf(id);
      RemoveHeadDir(id);
      var committed := RemoveRows(id);
      r := if committed then Deleted else RowsRemain;
    }

    ghost predicate SamePresence(files: set<string>, files': set<string>, h: nat, nodeId: nat) {
      var dir := PersistenceDir(h, NodeName(nodeId), folder);
      Present(files', dir) <==> Present(files, dir)
    }

    /** The directories the disk fails on during a call: none of those given while it is healthy. */
    function Faulty(faulty: set<string>): set<string>
      reads this
    {
      if storeHealthy then {} else faulty
    }

    /** One turn of the loop over a head's nodes. */
    method ClearOneNode(h: nat, i: nat, faulty: set<string>) returns (removed: bool)
      requires h in heads && i < |heads[h].nodes| && DistinctIds(heads[h].nodes)
      modifies `files
      ensures files <= old(files)
      ensures OnlySelected(old(files) - files, heads, {h}, folder)
      ensures var dir := PersistenceDir(h, NodeName(heads[h].nodes[i].id), folder);
              && (removed <==> Present(old(files), dir) && dir !in Faulty(faulty))
              && files == if removed then RemoveTree(old(files), dir) else old(files)
      ensures forall j :: 0 <= j < |heads[h].nodes| && j != i ==>
                SamePresence(old(files), files, h, heads[h].nodes[j].id)
    {
      var nodes := heads[h].nodes;
      var dir := PersistenceDir(h, NodeName(nodes[i].id), folder);
      removed := Present(files, dir) && (storeHealthy || dir !in faulty);
      if removed {
        files := RemoveTree(files, dir);
        assert Owns(heads, h, nodes[i].id);
        forall p | p in old(files) - files ensures InSelected(p, heads, {h}, folder) {
          assert Under(p, PersistenceDir(h, NodeName(nodes[i].id), folder));
        }
        forall j | 0 <= j < |nodes| && j != i ensures SamePresence(old(files), files, h, nodes[j].id) {
          OtherNodePresent(old(files), h, nodes, i, j, folder);
        }
      }
    }

    /** errors holds one directory for each message the source collects; access throws for a directory that
        is not there. */
    method ClearOneHead(h: nat, faulty: set<string>) returns (removedDirs: seq<string>, errors: seq<string>)
      requires h in heads && DistinctIds(heads[h].nodes)
      modifies `files
      ensures files <= old(files)
      ensures OnlySelected(old(files) - files, heads, {h}, folder)
      ensures forall d, p :: d in removedDirs && p in files ==> !Under(p, d)
      ensures DirsSettled({h}, heads, folder, removedDirs + errors)
      ensures forall d :: d in removedDirs + errors ==> d in DirsOf(h, heads[h].nodes, folder)
      ensures Reported(old(files), removedDirs, errors, Faulty(faulty))
    {
      removedDirs, errors := [], [];
      var nodes := heads[h].nodes;
      for i := 0 to |nodes|
        invariant files <= old(files)
        invariant OnlySelected(old(files) - files, heads, {h}, folder)
        invariant forall d, p :: d in removedDirs && p in files ==> !Under(p, d)
        invariant forall j :: 0 <= j < i ==> PersistenceDir(h, NodeName(nodes[j].id), folder) in removedDirs + errors
        invariant forall d :: d in removedDirs + errors ==> d in DirsOf(h, nodes, folder)
        invariant Reported(old(files), removedDirs, errors, Faulty(faulty))
        invariant forall j :: i <= j < |nodes| ==> SamePresence(old(files), files, h, nodes[j].id)
      {
        assert SamePresence(old(files), files, h, nodes[i].id);
        var removed := ClearOneNode(h, i, faulty);
        var dir := PersistenceDir(h, NodeName(nodes[i].id), folder);
        if removed {
          removedDirs := removedDirs + [dir];
        } else {
          errors := errors + [dir];
        }
      }
    }

    /** clearHeadData: removes persistence directories of the selected heads' nodes and nothing else; one
        that the disk fails on does not keep it from the others. */
    method ClearHeadData(ids: set<nat>, faulty: set<string>) returns (removedDirs: seq<string>, errors: seq<string>)
      requires Valid()
      modifies `files
      ensures Valid()
      ensures files <= old(files)
      ensures OnlySelected(old(files) - files, heads, ids * heads.Keys, folder)
      ensures forall h: nat, p :: h !in ids && p in old(files) && Under(p, HeadDir(h, folder)) ==> p in files
      ensures forall d, p :: d in removedDirs && p in files ==> !Under(p, d)
      ensures DirsSettled(ids * heads.Keys, heads, folder, removedDirs + errors)
      ensures Reported(old(files), removedDirs, errors, Faulty(faulty))
      ensures Does(Idle, old(Now()), Now(), Limit(maxActiveNodes))
    {
      removedDirs, errors := [], [];
      var done: set<nat>, left := {}, ids * heads.Keys;
      while left != {}
        invariant left + done == ids * heads.Keys && left !! done && files <= old(files)
        invariant OnlySelected(old(files) - files, heads, done, folder)
        invariant forall d, p :: d in removedDirs && p in files ==> !Under(p, d)
        invariant DirsSettled(done, heads, folder, removedDirs + errors)
        invariant Reported(old(files), removedDirs, errors, Faulty(faulty))
        decreases left
      {
        var h :| h in left;
        var before := files;
        var removed, failed := ClearOneHead(h, faulty);
        ReportedMore(old(files), before, heads, done, folder, h, removedDirs, errors, removed, failed, Faulty(faulty));
        OnlySelectedMore(old(files), before, files, heads, done, folder, h);
        DirsSettledStep(done, heads, folder, removedDirs, errors, h, removed, failed);
        removedDirs, errors := removedDirs + removed, errors + failed;
        done, left := done + {h}, left - {h};
      }
      forall h: nat, p | h !in ids && p in old(files) && Under(p, HeadDir(h, folder)) ensures p in files {
        if p !in files {
          assert InSelected(p, heads, ids * heads.Keys, folder);
          var g: nat, nodeId: nat :|
            g in ids * heads.Keys && Owns(heads, g, nodeId) && Under(p, PersistenceDir(g, NodeName(nodeId), folder));
          PersistenceUnderHead(g, NodeName(nodeId), folder, p);
          HeadDirsApart(g, h, folder, p);
        }
      }
    }

    // ---------- creation ----------

    method InsertHead()
      requires Valid()
      modifies `heads, `nextHeadId, `lastWrite
      ensures Valid()
      ensures old(nextHeadId) !in old(heads) && nextHeadId == old(nextHeadId) + 1
      ensures heads == old(heads)[old(nextHeadId) := Head(Configured, [])]
    {
      EmptyHeadAdded(heads, nextHeadId, nextNodeId, docker.containers, lastWrite, Ports.RunOf(portSteps));
      heads := heads[nextHeadId := Head(Configured, [])];
      lastWrite := lastWrite[nextHeadId := Creation];
      nextHeadId := nextHeadId + 1;
    }

    method SaveNode(id: nat, node: Node, ghost step: Ports.Step)
      requires Valid() && id in heads && heads[id].status == Configured && node.id == nextNodeId
      requires step.Create? && step.id == node.id
      requires Ports.RunOf(portSteps + [step]) == Ports.RunOf(portSteps)[node.id := node.port]
      modifies `heads, `nextNodeId, `portSteps
      ensures Valid()
      ensures NodeAppended(old(heads), heads, id) && heads[id].nodes[|old(heads)[id].nodes|] == node
      ensures portSteps == old(portSteps) + [step]
    {
      NodeSaved(heads, id, node, nextHeadId, docker.containers, lastWrite, portSteps, step);
      heads := heads[id := Head(heads[id].status, heads[id].nodes + [node])];
      nextNodeId := nextNodeId + 1;
      portSteps := portSteps + [step];
    }

    method InsertNode(id: nat, occupied: set<nat>) returns (ok: bool)
      requires Valid() && id in heads && heads[id].status == Configured
      modifies `heads, `nextNodeId, `portSteps
      ensures Valid()
      ensures !ok ==> heads == old(heads) && portSteps == old(portSteps)
      ensures storeHealthy && !ok ==> OutOfPorts(occupied, heads)
      ensures ok ==> NodeAppended(old(heads), heads, id) && old(portSteps) <= portSteps
      ensures ok ==> Some(heads[id].nodes[|old(heads)[id].nodes|].port) ==
                     Ports.FirstFree(occupied + StoredPorts(old(heads)), Ports.DEFAULT_PORT)
    {
      var port := Ports.GenValidPort(occupied, StoredPorts(heads));
      var saved: bool := *;
      if port.None? || !(saved || storeHealthy) {
        return false;
      }
      var node := Node(nextNodeId, port.value);
      PortStepTaken(heads, portSteps, node, occupied);
      SaveNode(id, node, Ports.Create(node.id, occupied));
      return true;
    }

    /** createHydraNode and the credentials files of the node. */
    method CreateNode(id: nat, occupied: set<nat>) returns (ok: bool)
      requires Valid() && id in heads && heads[id].status == Configured
      modifies `heads, `nextNodeId, `portSteps, `files
      ensures Valid()
      ensures heads == old(heads) || NodeAppended(old(heads), heads, id)
      ensures NodeAppended(old(heads), heads, id) ==>
        Some(heads[id].nodes[|old(heads)[id].nodes|].port) ==
        Ports.FirstFree(occupied + StoredPorts(old(heads)), Ports.DEFAULT_PORT)
      ensures ok ==> NodeAppended(old(heads), heads, id) &&
                     KeyFiles(id, heads[id].nodes[|old(heads)[id].nodes|].id, folder) <= files
      ensures old(files) <= files && old(portSteps) <= portSteps
      ensures storeHealthy && !ok ==> OutOfPorts(occupied, heads)
    {
      ok := InsertNode(id, occupied);
      if !ok {
        return;
      }
      ok := *;
      ok := ok || storeHealthy;
      if ok {
        files := files + KeyFiles(id, heads[id].nodes[|heads[id].nodes| - 1].id, folder);
      }
    }

    /** The loop over the keys; before is the table without the new head. */
    method CreateNodes(id: nat, keyCount: nat, occupied: nat -> set<nat>, ghost before: Heads) returns (complete: bool)
      requires Valid() && NewHead(before, heads, id, keyCount) && heads[id].nodes == []
      modifies `heads, `nextNodeId, `portSteps, `files
      ensures Valid() && NewHead(before, heads, id, keyCount)
      ensures PortsChosen(heads[id].nodes, StoredPorts(before), occupied)
      ensures complete ==> |heads[id].nodes| == keyCount && KeysWritten(id, heads[id].nodes, folder, files)
      ensures storeHealthy && !complete ==> exists i :: 0 <= i < keyCount && OutOfPorts(occupied(i), heads)
      ensures old(files) <= files && old(portSteps) <= portSteps
    {
      for i := 0 to keyCount
        invariant Valid()
        invariant NewHead(before, heads, id, keyCount) && |heads[id].nodes| == i
        invariant KeysWritten(id, heads[id].nodes, folder, files)
        invariant PortsChosen(heads[id].nodes, StoredPorts(before), occupied)
        invariant old(files) <= files && old(portSteps) <= portSteps
      {
        var headsBefore, filesBefore := heads, files;
        var ok := CreateNode(id, occupied(i));
        NewHeadGrows(before, headsBefore, heads, id, keyCount);
        if NodeAppended(headsBefore, heads, id) {
          PortsChosenMore(before, headsBefore, heads, id, keyCount, occupied);
        }
        if !ok {
          return false;
        }
        KeysWrittenMore(id, headsBefore, heads, folder, filesBefore, files);
      }
      return true;
    }

    /** create: a new head row, then node by node a port, a node row and the four key files. A failure
        part of the way throws and leaves what was already written. */
    method CreateHead(keyCount: nat, occupied: nat -> set<nat>) returns (created: Option<nat>)
      requires Valid()
      modifies `heads, `nextHeadId, `nextNodeId, `lastWrite, `portSteps, `files
      ensures Valid() && StatusMoves(old(heads), heads)
      ensures storeHealthy && created.None? ==> exists i :: 0 <= i < keyCount && OutOfPorts(occupied(i), heads)
      ensures heads == old(heads) || NewHead(old(heads), heads, old(nextHeadId), keyCount)
      ensures created.Some? ==>
        created.value == old(nextHeadId) && NewHead(old(heads), heads, created.value, keyCount) &&
        |heads[created.value].nodes| == keyCount &&
        PortsChosen(heads[created.value].nodes, StoredPorts(old(heads)), occupied) &&
        KeysWritten(created.value, heads[created.value].nodes, folder, files)
      ensures old(files) <= files && old(portSteps) <= portSteps
      ensures Does(Create(old(nextHeadId), keyCount), old(Now()), Now(), Limit(maxActiveNodes))
    {
      var saved: bool := *;
      if !(saved || storeHealthy) {
        return None;
      }
      var id := nextHeadId;
      InsertHead();
      var dirReady: bool := *;
      if !(dirReady || storeHealthy) {
        return None;
      }
      var complete := CreateNodes(id, keyCount, occupied, old(heads));
      return if complete then Some(id) else None;
    }
  }

  /** While ports were looked for with room in the band, the stored nodes' ports are pairwise apart:
      no two API ports, no two peer ports and no API port and peer port coincide. */
  lemma StoredPortsApart(s: HydraHeadService, g: nat, i: nat, h: nat, j: nat)
    requires s.Valid() && Ports.RoomInBand(s.portSteps)
    requires g in s.heads && i < |s.heads[g].nodes| && h in s.heads && j < |s.heads[h].nodes|
    ensures var a, b := s.heads[g].nodes[i].port, s.heads[h].nodes[j].port;
            a != b + Ports.PEER_OFFSET && ((g, i) != (h, j) ==> a != b)
  {
    Ports.RunKeepsPortsApart(s.portSteps);
    var m, n := s.heads[g].nodes[i], s.heads[h].nodes[j];
    assert Owns(s.heads, g, m.id) && Owns(s.heads, h, n.id);
  }
}
