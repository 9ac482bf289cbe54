/** The stored heads and nodes, the admission check, and what ties rows to containers and ports. */
module HeadRows {
  import opened Wrappers
  import opened Names
  import opened Docker
  import opened Readiness
  import opened Sets
  import Ports

  datatype Status = Configured | Running | Stop

  datatype Head = Head(status: Status, nodes: seq<Node>)

  type Heads = map<nat, Head>

  /** The node of the given id belongs to head h. */
  predicate Owns(heads: Heads, h: nat, nodeId: nat) {
    h in heads && exists i :: 0 <= i < |heads[h].nodes| && heads[h].nodes[i].id == nodeId
  }

  predicate DistinctIds(nodes: seq<Node>) {
    forall i, j :: 0 <= i < j < |nodes| ==> nodes[i].id != nodes[j].id
  }

  /** Ids come from counters, so no node is in two heads or twice in one. */
  ghost predicate RowsOk(heads: Heads, nextHeadId: nat, nextNodeId: nat) {
    && (forall h :: h in heads ==> h < nextHeadId && DistinctIds(heads[h].nodes))
    && (forall h: nat, id: nat :: Owns(heads, h, id) ==> id < nextNodeId)
    && (forall g: nat, h: nat, id: nat :: Owns(heads, g, id) && Owns(heads, h, id) ==> g == h)
  }

  /** A Hydra container is named after the node in its label, and labelled with that node's head. */
  ghost predicate ContainerOk(name: string, c: Container, heads: Heads, nextNodeId: nat) {
    MatchesNodePattern(name) ==>
      name == NodeName(c.nodeLabel) && c.nodeLabel < nextNodeId &&
      forall h :: Owns(heads, h, c.nodeLabel) ==> c.headLabel == h
  }

  ghost predicate ContainersOk(cs: Containers, heads: Heads, nextNodeId: nat) {
    forall name :: name in cs ==> ContainerOk(name, cs[name], heads, nextNodeId)
  }

  /** Why a head's status is what it is: the last write to it. A write of `running` comes with the answers
      the nodes gave to the wait before it. */
  datatype Cause = Creation | AllNodesReady(answers: Answers) | Stopping

  ghost predicate WasReady(nodes: seq<Node>, answers: Answers) {
    nodes != [] && ReadyInTime(nodes, answers)
  }

  ghost predicate StatusesOk(heads: Heads, lastWrite: map<nat, Cause>) {
    && heads.Keys == lastWrite.Keys
    && forall h :: h in heads ==>
         match heads[h].status
         case Configured => lastWrite[h] == Creation
         case Running => lastWrite[h].AllNodesReady? && WasReady(heads[h].nodes, lastWrite[h].answers)
         case Stop => lastWrite[h] == Stopping
  }

  /** ports is exactly the id -> port table of the stored nodes. */
  ghost predicate PortsOk(heads: Heads, ports: map<nat, nat>) {
    && (forall h, i :: h in heads && 0 <= i < |heads[h].nodes| ==>
          heads[h].nodes[i].id in ports && ports[heads[h].nodes[i].id] == heads[h].nodes[i].port)
    && (forall id :: id in ports ==> exists h :: Owns(heads, h, id))
  }

  function StoredPorts(heads: Heads): set<nat> {
    set h, i | h in heads && 0 <= i < |heads[h].nodes| :: heads[h].nodes[i].port
  }

  lemma StoredPortsAreTheValues(heads: Heads, ports: map<nat, nat>)
    requires PortsOk(heads, ports)
    ensures StoredPorts(heads) == ports.Values
  {
    forall p | p in ports.Values ensures p in StoredPorts(heads) {
      var id :| id in ports && ports[id] == p;
      var h :| Owns(heads, h, id);
      var i :| 0 <= i < |heads[h].nodes| && heads[h].nodes[i].id == id;
      assert heads[h].nodes[i].port == p;
    }
  }

  /** Only statuses differ. */
  predicate SameNodes(heads: Heads, heads': Heads) {
    heads.Keys == heads'.Keys && forall h :: h in heads ==> heads[h].nodes == heads'[h].nodes
  }

  lemma SameNodesKeepRows(heads: Heads, heads': Heads, nextHeadId: nat, nextNodeId: nat, cs: Containers,
                          ports: map<nat, nat>)
    requires SameNodes(heads, heads')
    requires RowsOk(heads, nextHeadId, nextNodeId) && ContainersOk(cs, heads, nextNodeId) && PortsOk(heads, ports)
    ensures RowsOk(heads', nextHeadId, nextNodeId) && ContainersOk(cs, heads', nextNodeId) && PortsOk(heads', ports)
  {
    assert forall h: nat, id: nat :: Owns(heads', h, id) <==> Owns(heads, h, id);
  }

  /** A container may stop, vanish, or be replaced by one labelled for its node. */
  lemma ContainersOkKept(cs: Containers, cs': Containers, heads: Heads, nextHeadId: nat, nextNodeId: nat, headId: nat)
    requires RowsOk(heads, nextHeadId, nextNodeId) && ContainersOk(cs, heads, nextNodeId)
    requires forall name :: name in cs' ==>
               (name in cs && cs'[name].headLabel == cs[name].headLabel && cs'[name].nodeLabel == cs[name].nodeLabel) ||
               (cs'[name].headLabel == headId && Owns(heads, headId, cs'[name].nodeLabel) &&
                name == NodeName(cs'[name].nodeLabel))
    ensures ContainersOk(cs', heads, nextNodeId)
  {
    forall name | name in cs' ensures ContainerOk(name, cs'[name], heads, nextNodeId) {
      if name in cs {
        assert ContainerOk(name, cs[name], heads, nextNodeId);
      }
    }
  }

  lemma ContainersAreLabelled(cs: Containers, heads: Heads, nextNodeId: nat)
    requires ContainersOk(cs, heads, nextNodeId)
    ensures Labelled(cs)
  {
    assert forall name :: name in cs ==> ContainerOk(name, cs[name], heads, nextNodeId);
  }

  // ---------- admission (checkNodesActiveHydraHead) ----------

  datatype Rejection = InvalidHeadId | AlreadyStarted | LimitExceeded

  /** `maxActiveNodes || 20`: an unreadable or zero setting means 20. */
  function Limit(configured: Option<int>): int {
    if configured.Some? && configured.value != 0 then configured.value else 20
  }

  predicate AllCached(nodes: seq<Node>, cache: seq<Entry>) {
    forall i :: 0 <= i < |nodes| ==> nodes[i].id in NodeIds(cache)
  }

  function Admission(nodes: seq<Node>, cache: seq<Entry>, limit: int): Option<Rejection> {
    if AllCached(nodes, cache) then Some(AlreadyStarted)
    else if |cache| + |nodes| > limit then Some(LimitExceeded)
    else None
  }

  predicate IdCached(cache: seq<Entry>, nodeId: nat) {
    exists k :: 0 <= k < |cache| && cache[k].hydraNodeId == nodeId
  }

  /** Some node of the head has no cache entry. */
  predicate SomeUncached(nodes: seq<Node>, cache: seq<Entry>) {
    exists i :: 0 <= i < |nodes| && !IdCached(cache, nodes[i].id)
  }

  /** A head counts as started when each of its nodes has an entry, under whatever head; only then, and
      otherwise when entries and nodes together exceed the limit, is it refused. */
  lemma AdmissionExact(nodes: seq<Node>, cache: seq<Entry>, limit: int)
    ensures Admission(nodes, cache, limit) == Some(AlreadyStarted) <==> !SomeUncached(nodes, cache)
    ensures Admission(nodes, cache, limit) == Some(LimitExceeded) <==>
            SomeUncached(nodes, cache) && |cache| + |nodes| > limit
    ensures Admission(nodes, cache, limit) != Some(InvalidHeadId)
  {
    forall i | 0 <= i < |nodes| ensures nodes[i].id in NodeIds(cache) <==> IdCached(cache, nodes[i].id) {
      if IdCached(cache, nodes[i].id) {
        var k :| 0 <= k < |cache| && cache[k].hydraNodeId == nodes[i].id;
        assert cache[k] in cache;
      }
    }
  }

  function IdsOf(nodes: seq<Node>): set<nat> {
    set i | 0 <= i < |nodes| :: nodes[i].id
  }

  /** So a head is refused as started exactly when the cached ids include all of its own. */
  lemma StartedIffIdsCached(nodes: seq<Node>, cache: seq<Entry>, limit: int)
    ensures IdsOf(nodes) <= NodeIds(cache) <==> Admission(nodes, cache, limit) == Some(AlreadyStarted)
  {
    assert forall i :: 0 <= i < |nodes| ==> nodes[i].id in IdsOf(nodes);
  }

  /** The source compares how many nodes the cache holds with how many there are. */
  method CheckNodesActive(nodes: seq<Node>, cache: seq<Entry>, limit: int) returns (r: Option<Rejection>)
    ensures r == Admission(nodes, cache, limit)
    ensures r == Some(AlreadyStarted) <==> !SomeUncached(nodes, cache)
    ensures r == Some(LimitExceeded) <==> SomeUncached(nodes, cache) && |cache| + |nodes| > limit
  {
    AdmissionExact(nodes, cache, limit);
    var active := 0;
    for i := 0 to |nodes|
      invariant 0 <= active <= i
      invariant active == i <==> forall j :: 0 <= j < i ==> nodes[j].id in NodeIds(cache)
    {
      if exists e :: e in cache && e.hydraNodeId == nodes[i].id {
        active := active + 1;
      }
    }
    if active >= |nodes| {
      return Some(AlreadyStarted);
    }
    if |cache| + |nodes| > limit {
      return Some(LimitExceeded);
    }
    return None;
  }

  lemma {:induction false} IdCount(nodes: seq<Node>)
    ensures |IdsOf(nodes)| <= |nodes|
  {
    if nodes != [] {
      var n := |nodes| - 1;
      IdCount(nodes[..n]);
      assert IdsOf(nodes) <= IdsOf(nodes[..n]) + {nodes[n].id} by {
        assert forall i :: 0 <= i < n ==> nodes[..n][i] == nodes[i];
      }
      SubsetSize(IdsOf(nodes), IdsOf(nodes[..n]) + {nodes[n].id});
    }
  }

  // ---------- list ----------

  predicate HasEntry(cache: seq<Entry>, headId: nat, nodeId: nat) {
    exists i :: 0 <= i < |cache| && cache[i].hydraHeadId == headId && cache[i].hydraNodeId == nodeId
  }

  /** `list` calls a head ACTIVE when it has nodes and finds an entry for each. */
  predicate IsActive(cache: seq<Entry>, headId: nat, nodes: seq<Node>) {
    |nodes| > 0 && forall i :: 0 <= i < |nodes| ==> HasEntry(cache, headId, nodes[i].id)
  }

  lemma EntryIffRuns(listing: seq<Listed>, cs: Containers, heads: Heads, nextHeadId: nat, nextNodeId: nat,
                     h: nat, nodeId: nat)
    requires IsListing(listing, cs) && Owns(heads, h, nodeId)
    requires RowsOk(heads, nextHeadId, nextNodeId) && ContainersOk(cs, heads, nextNodeId)
    ensures HasEntry(ActiveNodes(listing), h, nodeId) <==> Runs(cs, nodeId)
  {
    var cache, name := ActiveNodes(listing), NodeName(nodeId);
    NodeNameMatches(nodeId);
    if Runs(cs, nodeId) {
      assert ContainerOk(name, cs[name], heads, nextNodeId);
      NodeNameInjective(nodeId, cs[name].nodeLabel);
      var k :| 0 <= k < |listing| && listing[k] == Listed(name, cs[name]);
      var e := Entry(nodeId, h, true);
      assert ShownEntry(listing[k]) == Some(e);
      ActiveNodesMembers(listing, e);
      var i :| 0 <= i < |cache| && cache[i] == e;
    }
    if HasEntry(cache, h, nodeId) {
      var i :| 0 <= i < |cache| && cache[i].hydraHeadId == h && cache[i].hydraNodeId == nodeId;
      assert cache[i] in cache;
      ActiveNodesMembers(listing, cache[i]);
      var k :| 0 <= k < |listing| && ShownEntry(listing[k]) == Some(cache[i]);
      var l := listing[k];
      assert l in listing;
      assert ContainerOk(l.name, cs[l.name], heads, nextNodeId);
    }
  }

  /** Right after a refresh that nothing overtook, ACTIVE means: has nodes and all of them run. */
  lemma ActiveIffAllRun(listing: seq<Listed>, cs: Containers, heads: Heads, nextHeadId: nat, nextNodeId: nat, h: nat)
    requires IsListing(listing, cs) && h in heads
    requires RowsOk(heads, nextHeadId, nextNodeId) && ContainersOk(cs, heads, nextNodeId)
    ensures IsActive(ActiveNodes(listing), h, heads[h].nodes) <==>
            heads[h].nodes != [] && forall i :: 0 <= i < |heads[h].nodes| ==> Runs(cs, heads[h].nodes[i].id)
  {
    var nodes, cache := heads[h].nodes, ActiveNodes(listing);
    forall i | 0 <= i < |nodes| ensures HasEntry(cache, h, nodes[i].id) <==> Runs(cs, nodes[i].id) {
      EntryIffRuns(listing, cs, heads, nextHeadId, nextNodeId, h, nodes[i].id);
    }
  }

  // ---------- how operations change rows and files ----------

  function ProtocolFile(id: nat, folder: string): string {
    HeadDir(id, folder) + "/protocol-parameters.json"
  }

  ghost predicate AllRun(cs: Containers, nodes: seq<Node>) {
    forall i :: 0 <= i < |nodes| ==> Runs(cs, nodes[i].id)
  }

  predicate HasActiveEntry(cache: seq<Entry>, headId: nat, nodeId: nat) {
    exists i :: 0 <= i < |cache| &&
      cache[i].hydraNodeId == nodeId && cache[i].hydraHeadId == headId && cache[i].isActive
  }

  /** The containers restart complains about, in node order. */
  function InactiveNames(cache: seq<Entry>, headId: nat, nodes: seq<Node>): seq<string> {
    if nodes == [] then [] else
    var node := nodes[|nodes| - 1];
    InactiveNames(cache, headId, nodes[..|nodes| - 1]) +
    if HasActiveEntry(cache, headId, node.id) then [] else [NodeName(node.id)]
  }

  /** restart complains about nothing exactly when every node has an active entry of its head. */
  lemma {:induction false} NoneInactiveIff(cache: seq<Entry>, headId: nat, nodes: seq<Node>)
    ensures InactiveNames(cache, headId, nodes) == [] <==>
            forall i :: 0 <= i < |nodes| ==> HasActiveEntry(cache, headId, nodes[i].id)
  {
    if nodes != [] {
      var n := |nodes| - 1;
      NoneInactiveIff(cache, headId, nodes[..n]);
      assert forall i :: 0 <= i < n ==> nodes[..n][i] == nodes[i];
    }
  }

  /** The names restart complains about are those of the nodes without an active entry of the head. */
  lemma {:induction false} InactiveNamesExact(cache: seq<Entry>, headId: nat, nodes: seq<Node>, name: string)
    ensures name in InactiveNames(cache, headId, nodes) <==>
            exists n :: n in nodes && name == NodeName(n.id) && !HasActiveEntry(cache, headId, n.id)
    ensures |InactiveNames(cache, headId, nodes)| <= |nodes|
  {
    if nodes != [] {
      var n := |nodes| - 1;
      InactiveNamesExact(cache, headId, nodes[..n], name);
      assert nodes == nodes[..n] + [nodes[n]];
    }
  }

  lemma ActiveAreCached(cache: seq<Entry>, headId: nat, nodes: seq<Node>)
    requires InactiveNames(cache, headId, nodes) == []
    ensures IdsOf(nodes) <= NodeIds(cache)
  {
    NoneInactiveIff(cache, headId, nodes);
    forall i | 0 <= i < |nodes| ensures nodes[i].id in NodeIds(cache) {
      assert HasActiveEntry(cache, headId, nodes[i].id);
      var k :| 0 <= k < |cache| && cache[k].hydraNodeId == nodes[i].id;
      assert cache[k] in cache;
    }
  }

  /** Heads may have gone from running to stop; nothing else about them changed. */
  predicate OnlyStopped(heads: Heads, heads': Heads) {
    heads.Keys == heads'.Keys && forall h :: h in heads ==>
      heads'[h] == heads[h] || (heads[h].status == Running && heads'[h] == Head(Stop, heads[h].nodes))
  }

  /** The heads stored as running, apart from those in left, have all their containers running. */
  ghost predicate RunningSwept(heads: Heads, cs: Containers, left: set<nat>) {
    forall h :: h in heads && heads[h].status == Running && h !in left ==> AllRun(cs, heads[h].nodes)
  }

  /** Whatever was stopped had a container that does not run. */
  ghost predicate OnlyDeadStopped(heads: Heads, heads': Heads, cs: Containers) {
    forall h :: h in heads && h in heads' && heads'[h] != heads[h] ==> !AllRun(cs, heads[h].nodes)
  }

  /** How far a sweep has come: the heads in open are not swept yet, or could not be updated. */
  ghost predicate SweepState(heads0: Heads, heads: Heads, cs: Containers, open: set<nat>, healthy: bool) {
    OnlyStopped(heads0, heads) && RunningSwept(heads, cs, open) && (healthy ==> OnlyDeadStopped(heads0, heads, cs))
  }

  /** What the sweep does to one head: stop it because of some node, or leave it because all run. */
  ghost predicate SweptOne(heads: Heads, heads': Heads, cs: Containers, h: nat, healthy: bool)
    requires h in heads
  {
    (heads' == heads && AllRun(cs, heads[h].nodes)) ||
    (heads' == heads[h := Head(Stop, heads[h].nodes)] && (healthy ==> !AllRun(cs, heads[h].nodes)))
  }

  predicate AllStoredRunning(heads: Heads, ids: set<nat>) {
    forall h :: h in ids ==> h in heads && heads[h].status == Running
  }

  /** Sweeping one more head keeps what is known of the others. */
  lemma SweepStep(heads0: Heads, heads: Heads, heads': Heads, cs: Containers, left: set<nat>, failed: set<nat>,
                  h: nat, healthy: bool)
    requires AllStoredRunning(heads, left) && h in left
    requires SweepState(heads0, heads, cs, left + failed, healthy) && SweptOne(heads, heads', cs, h, healthy)
    ensures SweepState(heads0, heads', cs, left - {h} + failed, healthy) && AllStoredRunning(heads', left - {h})
  {
    assert heads0[h].nodes == heads[h].nodes;
  }

  /** No valid port is left for another node. */
  predicate OutOfPorts(occupied: set<nat>, heads: Heads) {
    Ports.FirstFree(occupied + StoredPorts(heads), Ports.DEFAULT_PORT).None?
  }

  /** The persistence directories of a head's nodes. */
  function DirsOf(headId: nat, nodes: seq<Node>, folder: string): set<string> {
    set i | 0 <= i < |nodes| :: PersistenceDir(headId, NodeName(nodes[i].id), folder)
  }

  /** Each node of the given heads has its persistence directory among dirs. */
  predicate DirsSettled(ids: set<nat>, heads: Heads, folder: string, dirs: seq<string>)
    requires ids <= heads.Keys
  {
    forall h, d :: h in ids && d in DirsOf(h, heads[h].nodes, folder) ==> d in dirs
  }

  lemma DirsSettledStep(ids: set<nat>, heads: Heads, folder: string, removed: seq<string>, errors: seq<string>,
                        h: nat, removed': seq<string>, errors': seq<string>)
    requires ids <= heads.Keys && h in heads
    requires DirsSettled(ids, heads, folder, removed + errors)
    requires DirsSettled({h}, heads, folder, removed' + errors')
    ensures DirsSettled(ids + {h}, heads, folder, (removed + removed') + (errors + errors'))
  {
    forall g, d | g in ids + {h} && d in DirsOf(g, heads[g].nodes, folder)
      ensures d in (removed + removed') + (errors + errors')
    {
      assert d in removed + errors || d in removed' + errors';
    }
  }

  /** No file below the directory of any head but the given one is lost. */
  ghost predicate OthersKeepFiles(files: set<string>, files': set<string>, id: nat, folder: string) {
    forall other: nat, p :: other != id && p in files && Under(p, HeadDir(other, folder)) ==> p in files'
  }

  /** The four credentials files of a node, on the host. */
  function KeyFiles(headId: nat, nodeId: nat, folder: string): set<string> {
    var base := HeadDir(headId, folder) + "/" + NodeName(nodeId);
    {base + ".sk", base + ".vk", base + ".cardano.sk", base + ".cardano.vk"}
  }

  /** p lies in the persistence directory of a node of one of the given heads. */
  ghost predicate InSelected(p: string, heads: Heads, ids: set<nat>, folder: string) {
    exists h: nat, nodeId: nat ::
      h in ids && Owns(heads, h, nodeId) && Under(p, PersistenceDir(h, NodeName(nodeId), folder))
  }

  ghost predicate OnlySelected(gone: set<string>, heads: Heads, ids: set<nat>, folder: string) {
    forall p :: p in gone ==> InSelected(p, heads, ids, folder)
  }

  lemma OnlySelectedMore(files0: set<string>, files: set<string>, files': set<string>, heads: Heads, ids: set<nat>,
                         folder: string, h: nat)
    requires files' <= files <= files0
    requires OnlySelected(files0 - files, heads, ids, folder) && OnlySelected(files - files', heads, {h}, folder)
    ensures OnlySelected(files0 - files', heads, ids + {h}, folder)
  {
    forall p | p in files0 - files' ensures InSelected(p, heads, ids + {h}, folder) {
      if p in files {
        assert InSelected(p, heads, {h}, folder);
      } else {
        assert InSelected(p, heads, ids, folder);
      }
    }
  }

  /** What was reported removed had been there, and what was reported in error had not, or is one of those
      the disk fails on. */
  ghost predicate Reported(files: set<string>, removed: seq<string>, errors: seq<string>, faulty: set<string>) {
    (forall d :: d in removed ==> Present(files, d) && d !in faulty) &&
    (forall d :: d in errors ==> !Present(files, d) || d in faulty)
  }

  /** Clearing other heads takes nothing from the directories of this one. */
  lemma StillPresent(files0: set<string>, files: set<string>, heads: Heads, ids: set<nat>, folder: string, h: nat,
                     nodeId: nat)
    requires files <= files0 && OnlySelected(files0 - files, heads, ids, folder) && h !in ids
    ensures var dir := PersistenceDir(h, NodeName(nodeId), folder); Present(files, dir) <==> Present(files0, dir)
  {
    var dir := PersistenceDir(h, NodeName(nodeId), folder);
    forall p | p in files0 && Under(p, dir) ensures p in files {
      if p !in files {
        assert InSelected(p, heads, ids, folder);
        var g: nat, m: nat :| g in ids && Owns(heads, g, m) && Under(p, PersistenceDir(g, NodeName(m), folder));
        PersistenceDirsApart(g, m, h, nodeId, folder, p);
      }
    }
  }

  lemma ReportedMore(files0: set<string>, files: set<string>, heads: Heads, ids: set<nat>, folder: string, h: nat,
                     removed: seq<string>, errors: seq<string>, removed': seq<string>, errors': seq<string>,
                     faulty: set<string>)
    requires files <= files0 && OnlySelected(files0 - files, heads, ids, folder) && h in heads && h !in ids
    requires Reported(files0, removed, errors, faulty) && Reported(files, removed', errors', faulty)
    requires forall d :: d in removed' + errors' ==> d in DirsOf(h, heads[h].nodes, folder)
    ensures Reported(files0, removed + removed', errors + errors', faulty)
  {
    forall d | d in removed' + errors' ensures Present(files, d) <==> Present(files0, d) {
      var i :| 0 <= i < |heads[h].nodes| && d == PersistenceDir(h, NodeName(heads[h].nodes[i].id), folder);
      StillPresent(files0, files, heads, ids, folder, h, heads[h].nodes[i].id);
    }
    assert forall d :: d in removed' || d in errors' ==> d in removed' + errors';
  }

  /** Taking the directory of one node away leaves that of another one as it was. */
  lemma OtherNodePresent(files: set<string>, h: nat, nodes: seq<Node>, i: nat, j: nat, folder: string)
    requires DistinctIds(nodes) && i < |nodes| && j < |nodes| && i != j
    ensures var dir := PersistenceDir(h, NodeName(nodes[j].id), folder);
            Present(RemoveTree(files, PersistenceDir(h, NodeName(nodes[i].id), folder)), dir) <==> Present(files, dir)
  {
    var gone := PersistenceDir(h, NodeName(nodes[i].id), folder);
    var dir := PersistenceDir(h, NodeName(nodes[j].id), folder);
    forall p | p in files && Under(p, dir) ensures p in RemoveTree(files, gone) {
      if Under(p, gone) {
        PersistenceDirsApart(h, nodes[i].id, h, nodes[j].id, folder, p);
      }
    }
  }

  lemma OwnsWithout(heads: Heads, id: nat)
    requires id in heads
    ensures forall h: nat, x: nat :: Owns(heads - {id}, h, x) <==> Owns(heads, h, x) && h != id
  {
    var heads' := heads - {id};
    forall h: nat, x: nat ensures Owns(heads', h, x) <==> Owns(heads, h, x) && h != id {
      if h in heads && h != id {
        assert heads'[h] == heads[h];
      }
    }
  }

  lemma PortsWithout(heads: Heads, id: nat, ports: map<nat, nat>, nextHeadId: nat, nextNodeId: nat)
    requires id in heads && RowsOk(heads, nextHeadId, nextNodeId) && PortsOk(heads, ports)
    ensures PortsOk(heads - {id}, ports - IdsOf(heads[id].nodes))
  {
    var heads', gone := heads - {id}, IdsOf(heads[id].nodes);
    forall h, i | h in heads' && 0 <= i < |heads'[h].nodes|
      ensures heads'[h].nodes[i].id in ports - gone
    {
      assert Owns(heads, h, heads[h].nodes[i].id);
      assert heads[h].nodes[i].id in gone ==> Owns(heads, id, heads[h].nodes[i].id);
    }
    forall x | x in ports - gone ensures exists h :: Owns(heads', h, x) {
      var h :| Owns(heads, h, x);
      assert h != id;
      OwnsWithout(heads, id);
      assert Owns(heads', h, x);
    }
  }

  lemma RowsWithout(heads: Heads, id: nat, nextHeadId: nat, nextNodeId: nat, cs: Containers,
                    lastWrite: map<nat, Cause>, portSteps: seq<Ports.Step>)
    requires id in heads
    requires RowsOk(heads, nextHeadId, nextNodeId) && ContainersOk(cs, heads, nextNodeId)
    requires StatusesOk(heads, lastWrite) && PortsOk(heads, Ports.RunOf(portSteps))
    ensures var heads' := heads - {id};
            && RowsOk(heads', nextHeadId, nextNodeId) && ContainersOk(cs, heads', nextNodeId)
            && StatusesOk(heads', lastWrite - {id})
            && PortsOk(heads', Ports.RunOf(portSteps + [Ports.Delete(IdsOf(heads[id].nodes))]))
  {
    var heads' := heads - {id};
    var gone := IdsOf(heads[id].nodes);
    assert (portSteps + [Ports.Delete(gone)])[..|portSteps|] == portSteps;
    OwnsWithout(heads, id);
    forall name | name in cs ensures ContainerOk(name, cs[name], heads', nextNodeId) {
      assert ContainerOk(name, cs[name], heads, nextNodeId);
    }
    PortsWithout(heads, id, Ports.RunOf(portSteps), nextHeadId, nextNodeId);
  }

  lemma EmptyHeadPorts(heads: Heads, id: nat, ports: map<nat, nat>)
    requires id !in heads && PortsOk(heads, ports)
    ensures PortsOk(heads[id := Head(Configured, [])], ports)
  {
    var heads' := heads[id := Head(Configured, [])];
    forall x | x in ports ensures exists h :: Owns(heads', h, x) {
      var h :| Owns(heads, h, x);
      var i :| 0 <= i < |heads[h].nodes| && heads[h].nodes[i].id == x;
      assert heads'[h] == heads[h] && heads'[h].nodes[i].id == x;
      assert Owns(heads', h, x);
    }
  }

  lemma EmptyHeadAdded(heads: Heads, id: nat, nextNodeId: nat, cs: Containers, lastWrite: map<nat, Cause>,
                       ports: map<nat, nat>)
    requires RowsOk(heads, id, nextNodeId) && ContainersOk(cs, heads, nextNodeId)
    requires StatusesOk(heads, lastWrite) && PortsOk(heads, ports)
    ensures id !in heads
    ensures var heads' := heads[id := Head(Configured, [])];
            && RowsOk(heads', id + 1, nextNodeId) && ContainersOk(cs, heads', nextNodeId)
            && StatusesOk(heads', lastWrite[id := Creation]) && PortsOk(heads', ports)
  {
    var heads' := heads[id := Head(Configured, [])];
    assert forall h: nat, x: nat :: Owns(heads', h, x) <==> Owns(heads, h, x);
    forall name | name in cs ensures ContainerOk(name, cs[name], heads', nextNodeId) {
      assert ContainerOk(name, cs[name], heads, nextNodeId);
    }
    EmptyHeadPorts(heads, id, ports);
  }

  lemma OwnsAdded(heads: Heads, id: nat, node: Node)
    requires id in heads
    ensures var heads' := heads[id := Head(heads[id].status, heads[id].nodes + [node])];
            forall h: nat, x: nat :: Owns(heads', h, x) <==> Owns(heads, h, x) || (h == id && x == node.id)
  {
    var heads' := heads[id := Head(heads[id].status, heads[id].nodes + [node])];
    var n := |heads[id].nodes|;
    assert heads'[id].nodes[n] == node;
    assert forall i :: 0 <= i < n ==> heads'[id].nodes[i] == heads[id].nodes[i];
    forall h: nat, x: nat | Owns(heads, h, x) ensures Owns(heads', h, x) {
      var i :| 0 <= i < |heads[h].nodes| && heads[h].nodes[i].id == x;
      assert heads'[h].nodes[i].id == x;
    }
  }

  lemma PortAdded(heads: Heads, id: nat, node: Node, nextHeadId: nat, ports: map<nat, nat>)
    requires id in heads && RowsOk(heads, nextHeadId, node.id) && PortsOk(heads, ports)
    ensures PortsOk(heads[id := Head(heads[id].status, heads[id].nodes + [node])], ports[node.id := node.port])
  {
    var heads' := heads[id := Head(heads[id].status, heads[id].nodes + [node])];
    var ports' := ports[node.id := node.port];
    OwnsAdded(heads, id, node);
    forall h, i | h in heads' && 0 <= i < |heads'[h].nodes|
      ensures heads'[h].nodes[i].id in ports' && ports'[heads'[h].nodes[i].id] == heads'[h].nodes[i].port
    {
      if i < |heads[h].nodes| {
        assert heads'[h].nodes[i] == heads[h].nodes[i];
        assert Owns(heads, h, heads[h].nodes[i].id);
      }
    }
    forall x | x in ports' ensures exists h :: Owns(heads', h, x) {
      if x == node.id {
        assert Owns(heads', id, x);
      } else {
        var h :| Owns(heads, h, x);
        assert Owns(heads', h, x);
      }
    }
  }

  lemma NodeAdded(heads: Heads, id: nat, node: Node, nextHeadId: nat, cs: Containers, ports: map<nat, nat>)
    requires id in heads && RowsOk(heads, nextHeadId, node.id)
    requires ContainersOk(cs, heads, node.id) && PortsOk(heads, ports)
    ensures var heads' := heads[id := Head(heads[id].status, heads[id].nodes + [node])];
            && RowsOk(heads', nextHeadId, node.id + 1) && ContainersOk(cs, heads', node.id + 1)
            && PortsOk(heads', ports[node.id := node.port])
  {
    var heads' := heads[id := Head(heads[id].status, heads[id].nodes + [node])];
    OwnsAdded(heads, id, node);
    assert forall i :: 0 <= i < |heads[id].nodes| ==> Owns(heads, id, heads[id].nodes[i].id);
    forall name | name in cs ensures ContainerOk(name, cs[name], heads', node.id + 1) {
      assert ContainerOk(name, cs[name], heads, node.id);
    }
    PortAdded(heads, id, node, nextHeadId, ports);
  }

  predicate NewHead(heads: Heads, heads': Heads, id: nat, maxNodes: nat) {
    id !in heads && id in heads' && heads' == heads[id := heads'[id]] &&
    heads'[id].status == Configured && |heads'[id].nodes| <= maxNodes
  }

  predicate NodeAppended(heads: Heads, heads': Heads, id: nat) {
    id in heads && id in heads' && heads' == heads[id := heads'[id]] && heads'[id].status == heads[id].status &&
    |heads'[id].nodes| == |heads[id].nodes| + 1 && heads'[id].nodes[..|heads[id].nodes|] == heads[id].nodes
  }

  function PortsOf(nodes: seq<Node>): set<nat> {
    set i | 0 <= i < |nodes| :: nodes[i].port
  }

  /** Each node got the first port free among those occupied on the host when its turn came, those known
      before, and those of the nodes ahead of it. */
  predicate PortsChosen(nodes: seq<Node>, known: set<nat>, occupied: nat -> set<nat>) {
    forall i :: 0 <= i < |nodes| ==>
      Some(nodes[i].port) == Ports.FirstFree(occupied(i) + (known + PortsOf(nodes[..i])), Ports.DEFAULT_PORT)
  }

  lemma NewHeadPorts(heads: Heads, heads': Heads, id: nat, maxNodes: nat)
    requires NewHead(heads, heads', id, maxNodes)
    ensures StoredPorts(heads') == StoredPorts(heads) + PortsOf(heads'[id].nodes)
  {
    forall p | p in StoredPorts(heads) ensures p in StoredPorts(heads') {
      var h, i :| h in heads && 0 <= i < |heads[h].nodes| && heads[h].nodes[i].port == p;
      assert heads'[h].nodes[i].port == p;
    }
  }

  lemma ChosenNext(nodes: seq<Node>, node: Node, known: set<nat>, occupied: nat -> set<nat>)
    requires PortsChosen(nodes, known, occupied)
    requires Some(node.port) ==
             Ports.FirstFree(occupied(|nodes|) + (known + PortsOf(nodes)), Ports.DEFAULT_PORT)
    ensures PortsChosen(nodes + [node], known, occupied)
  {
    var more := nodes + [node];
    forall i | 0 <= i < |more|
      ensures Some(more[i].port) == Ports.FirstFree(occupied(i) + (known + PortsOf(more[..i])), Ports.DEFAULT_PORT)
    {
      assert more[..i] == nodes[..i];
      assert nodes[..|nodes|] == nodes;
    }
  }

  lemma PortsChosenMore(heads0: Heads, heads: Heads, heads': Heads, id: nat, maxNodes: nat,
                        occupied: nat -> set<nat>)
    requires NewHead(heads0, heads, id, maxNodes) && NodeAppended(heads, heads', id)
    requires PortsChosen(heads[id].nodes, StoredPorts(heads0), occupied)
    requires var n := |heads[id].nodes|;
             Some(heads'[id].nodes[n].port) ==
             Ports.FirstFree(occupied(n) + StoredPorts(heads), Ports.DEFAULT_PORT)
    ensures PortsChosen(heads'[id].nodes, StoredPorts(heads0), occupied)
  {
    NewHeadPorts(heads0, heads, id, maxNodes);
    var nodes := heads[id].nodes;
    ChosenNext(nodes, heads'[id].nodes[|nodes|], StoredPorts(heads0), occupied);
    assert heads'[id].nodes == nodes + [heads'[id].nodes[|nodes|]];
  }

  predicate KeysWritten(id: nat, nodes: seq<Node>, folder: string, files: set<string>) {
    forall i :: 0 <= i < |nodes| ==> KeyFiles(id, nodes[i].id, folder) <= files
  }

  lemma NewIdIsFresh(heads: Heads, ports: map<nat, nat>, nextHeadId: nat, nextNodeId: nat)
    requires RowsOk(heads, nextHeadId, nextNodeId) && PortsOk(heads, ports)
    ensures nextNodeId !in ports
  {
    assert nextNodeId in ports ==> exists h :: Owns(heads, h, nextNodeId);
  }

  lemma NodeKeepsStatuses(heads: Heads, id: nat, node: Node, lastWrite: map<nat, Cause>)
    requires StatusesOk(heads, lastWrite) && id in heads && heads[id].status == Configured
    ensures StatusesOk(heads[id := Head(heads[id].status, heads[id].nodes + [node])], lastWrite)
  {
  }

  lemma FreshNodeStep(heads: Heads, portSteps: seq<Ports.Step>, step: Ports.Step, nextHeadId: nat, nextNodeId: nat)
    requires RowsOk(heads, nextHeadId, nextNodeId) && PortsOk(heads, Ports.RunOf(portSteps))
    requires Ports.FreshIds(portSteps) && step.Create? && step.id == nextNodeId
    ensures Ports.FreshIds(portSteps + [step])
  {
    NewIdIsFresh(heads, Ports.RunOf(portSteps), nextHeadId, nextNodeId);
    Ports.OneMoreFresh(portSteps, step);
  }

  /** All that saving one more node keeps in order. */
  lemma NodeSaved(heads: Heads, id: nat, node: Node, nextHeadId: nat, cs: Containers, lastWrite: map<nat, Cause>,
                  portSteps: seq<Ports.Step>, step: Ports.Step)
    requires id in heads && heads[id].status == Configured
    requires RowsOk(heads, nextHeadId, node.id) && ContainersOk(cs, heads, node.id) && StatusesOk(heads, lastWrite)
    requires PortsOk(heads, Ports.RunOf(portSteps)) && Ports.FreshIds(portSteps)
    requires step.Create? && step.id == node.id
    requires Ports.RunOf(portSteps + [step]) == Ports.RunOf(portSteps)[node.id := node.port]
    ensures var heads' := heads[id := Head(heads[id].status, heads[id].nodes + [node])];
            && RowsOk(heads', nextHeadId, node.id + 1) && ContainersOk(cs, heads', node.id + 1)
            && StatusesOk(heads', lastWrite)
            && PortsOk(heads', Ports.RunOf(portSteps + [step])) && Ports.FreshIds(portSteps + [step])
            && NodeAppended(heads, heads', id) && heads'[id].nodes[|heads[id].nodes|] == node
  {
    NodeAdded(heads, id, node, nextHeadId, cs, Ports.RunOf(portSteps));
    FreshNodeStep(heads, portSteps, step, nextHeadId, node.id);
    NodeKeepsStatuses(heads, id, node, lastWrite);
  }

  lemma PortStepTaken(heads: Heads, portSteps: seq<Ports.Step>, node: Node, occupied: set<nat>)
    requires PortsOk(heads, Ports.RunOf(portSteps))
    requires Some(node.port) == Ports.FirstFree(occupied + StoredPorts(heads), Ports.DEFAULT_PORT)
    ensures Ports.RunOf(portSteps + [Ports.Create(node.id, occupied)]) == Ports.RunOf(portSteps)[node.id := node.port]
  {
    StoredPortsAreTheValues(heads, Ports.RunOf(portSteps));
    assert (portSteps + [Ports.Create(node.id, occupied)])[..|portSteps|] == portSteps;
  }

  lemma NewHeadGrows(heads0: Heads, heads: Heads, heads': Heads, id: nat, maxNodes: nat)
    requires NewHead(heads0, heads, id, maxNodes) && |heads[id].nodes| < maxNodes
    requires heads' == heads || NodeAppended(heads, heads', id)
    ensures NewHead(heads0, heads', id, maxNodes)
  {
    assert heads' == heads0[id := heads'[id]];
  }

  lemma KeysWrittenMore(id: nat, heads: Heads, heads': Heads, folder: string, files: set<string>, files': set<string>)
    requires NodeAppended(heads, heads', id) && KeysWritten(id, heads[id].nodes, folder, files) && files <= files'
    requires KeyFiles(id, heads'[id].nodes[|heads[id].nodes|].id, folder) <= files'
    ensures KeysWritten(id, heads'[id].nodes, folder, files')
  {
    forall i | 0 <= i < |heads'[id].nodes| ensures KeyFiles(id, heads'[id].nodes[i].id, folder) <= files' {
      if i < |heads[id].nodes| {
        assert heads'[id].nodes[i] == heads'[id].nodes[..|heads[id].nodes|][i] == heads[id].nodes[i];
      }
    }
  }

  /** No step takes a head back to configured. */
  predicate StatusMoves(heads: Heads, heads': Heads) {
    forall h :: h in heads && h in heads' && heads'[h].status == Configured ==> heads[h].status == Configured
  }
}
